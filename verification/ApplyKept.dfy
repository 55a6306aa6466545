/**
  When nothing is lost in the runs of ApplyRun.  The recovery horizon may lie beyond a change that the
  node misses: the change is then bypassed.  It is lost when a later syncpoint of its origin comes in
  the same stream.  In every run whose senders have no change overtaken in this way, all registered
  syncpoints have everything up to them before them, and only what is applied is skipped; without
  bypassed changes, everything a receiver has passed is applied or being applied.
 */
module ApplyKept {
  import SP = Syncpoints
  import opened RecoveryFilter
  import opened ApplyRun

  // ----- bypassed changes -----

  /** The sender has placed its row about x, up to upTo, after p. */
  predicate RowAfter(w: Senders, d: nat, x: nat, upTo: Lsn, p: Lsn)
    requires d in w
  {
    (x, upTo) in w[d].rows && w[d].rows[(x, upTo)] > p
  }

  ghost predicate SomeRowAfter(w: Senders, d: nat, x: nat, p: Lsn)
    requires d in w
  {
    exists upTo: Lsn :: RowAfter(w, d, x, upTo, p)
  }

  /**
    Some reader's horizon in d's WAL is after change k of d's stream although the reader misses it: a row about the change's origin,
    not reaching the change, is placed after it, and so is some row about every other origin, and a syncpoint of d itself.
   */
  ghost predicate Bypassed(st: Streams, w: Senders, me: nat, d: nat, k: nat) {
    && d in st && d in w && k < |st[d]| && k < |w[d].at| && st[d][k].Tx? && st[d][k].origin != me && st[d][k].origin != d
    && (exists upTo: Lsn :: RowAfter(w, d, st[d][k].origin, upTo, w[d].at[k]) && upTo < st[d][k].lsn)
    && (forall x {:trigger SomeRowAfter(w, d, x, w[d].at[k])} :: x in st && x != st[d][k].origin && x != d ==> SomeRowAfter(w, d, x, w[d].at[k]))
    && (exists l :: SyncOf(st, d, l) && l > w[d].at[k])
  }

  ghost predicate Unbypassed(st: Streams, w: Senders, me: nat) {
    forall d, k {:trigger Bypassed(st, w, me, d, k)} :: !Bypassed(st, w, me, d, k)
  }

  /** A syncpoint of the change's origin, at or beyond the change, comes later in the stream. */
  ghost predicate CoveredAt(s: seq<Item>, k: nat, j: nat) {
    k < j < |s| && s[j].Sync? && s[j].origin == s[k].origin && s[j].lsn >= s[k].lsn
  }

  ghost predicate Overtaken(st: Streams, w: Senders, me: nat, d: nat, k: nat) {
    Bypassed(st, w, me, d, k) && exists j :: CoveredAt(st[d], k, j)
  }

  ghost predicate NoneOvertaken(st: Streams, w: Senders, me: nat) {
    forall d, k {:trigger Bypassed(st, w, me, d, k)} :: !Overtaken(st, w, me, d, k)
  }

  lemma UnbypassedNotOvertaken(st: Streams, w: Senders, me: nat)
    requires Unbypassed(st, w, me)
    ensures NoneOvertaken(st, w, me)
  {
    forall d: nat, k: nat
      ensures !Overtaken(st, w, me, d, k)
    {
      assert !Bypassed(st, w, me, d, k);
    }
  }

  /** Before the horizon, the sender has a row that the node's latest syncpoint of x reaches. */
  lemma RowBeyond(st: Streams, w: Senders, me: nat, wal: seq<WalRecord>, d: nat, copy: SP.Rows, h: Lsn, x: nat, p: Lsn)
    requires ValidStreams(st, me) && d in st && d in w && CopyOf(copy, w[d].rows) && HorizonFrom(st, me, wal, d, copy) == SP.Some(h) && p < h
    requires x in st && x != d
    ensures exists upTo: Lsn :: RowAfter(w, d, x, upTo, p) && upTo <= LatestSp(wal, x).originLsn
  {
    assert StreamOK(st, me, x) && StreamOK(st, me, d);
    HorizonAtMost(st, me, wal, d, copy, x);
    var upTo := SP.TranslateLsn(copy, x, LatestSp(wal, x).originLsn).value;
    assert RowAfter(w, d, x, upTo, p);
  }

  /** And so it has a syncpoint of its own. */
  lemma OwnBeyond(st: Streams, me: nat, wal: seq<WalRecord>, d: nat, copy: SP.Rows, h: Lsn, p: Lsn)
    requires ValidStreams(st, me) && WalOK(st, wal) && d in st && HorizonFrom(st, me, wal, d, copy) == SP.Some(h) && p < h
    ensures exists l: Lsn :: SyncOf(st, d, l) && l > p
  {
    assert StreamOK(st, me, d);
    HorizonAtMost(st, me, wal, d, copy, d);
    LatestSpIs(wal, d);
    var r :| 0 <= r < |wal| && IsRow(wal[r], d) && wal[r].kind.upTo == LatestSp(wal, d).originLsn;
    assert RecordOK(st, wal, r);
  }

  /** A change beyond the node's latest syncpoint that lies before the horizon is bypassed. */
  lemma BeforeHorizon(st: Streams, w: Senders, me: nat, s: State, d: nat, h: Lsn, i: nat)
    requires Inv(st, me, s) && ValidSenders(st, w, me) && d in st && d in w && StartsFrom(st, w, me, s.wal, d, Recovery, h)
    requires i < |st[d]| && Wanted(st, me, d, Recovery, i) && i < |w[d].at| && w[d].at[i] < h && st[d][i].Tx? && st[d][i].origin != d
    ensures st[d][i].lsn <= LatestSp(s.wal, st[d][i].origin).originLsn || Bypassed(st, w, me, d, i)
  {
    var o, at := st[d][i].origin, w[d].at[i];
    WantedItem(st, me, d, Recovery, i);
    var copy :| CopyOf(copy, w[d].rows) && HorizonFrom(st, me, s.wal, d, copy) == SP.Some(h);
    RowBeyond(st, w, me, s.wal, d, copy, h, o, at);
    forall x | x in st && x != o && x != d
      ensures SomeRowAfter(w, d, x, at)
    {
      RowBeyond(st, w, me, s.wal, d, copy, h, x, at);
    }
    OwnBeyond(st, me, s.wal, d, copy, h, at);
  }

  // ----- the first half of the contract -----

  /** The first half of a row's contract: everything up to upTo lies before since. */
  ghost predicate FirstHalf(st: Streams, wal: seq<WalRecord>, o: nat, upTo: Lsn, since: Lsn) {
    forall l: Lsn {:trigger Made(st, o, l)} :: Made(st, o, l) && l <= upTo ==> AppliedBefore(wal, o, l, since)
  }

  ghost predicate AppliedBefore(wal: seq<WalRecord>, o: nat, l: Lsn, since: Lsn) {
    exists k :: 0 <= k < |wal| && IsRecordOf(wal[k], o, l) && wal[k].start < since
  }

  ghost predicate RecordKept(st: Streams, wal: seq<WalRecord>, k: nat)
    requires k < |wal|
  {
    var kind := wal[k].kind;
    && (kind.Mark? ==> FirstHalf(st, wal[..k], kind.about, kind.upTo, k + 1))
    && (kind.Registration? ==> FirstHalf(st, wal[..k], kind.about, kind.upTo, kind.since))
  }

  ghost predicate WalKept(st: Streams, wal: seq<WalRecord>) {
    forall k {:trigger RecordKept(st, wal, k)} :: 0 <= k < |wal| ==> RecordKept(st, wal, k)
  }

  lemma KeptPrefix(st: Streams, wal: seq<WalRecord>, n: nat)
    requires WalKept(st, wal) && n <= |wal|
    ensures WalKept(st, wal[..n])
  {
    forall k | 0 <= k < n
      ensures RecordKept(st, wal[..n], k)
    {
      assert RecordKept(st, wal, k);
      assert wal[..n][..k] == wal[..k];
    }
  }

  lemma KeptAppend(st: Streams, wal: seq<WalRecord>, r: WalRecord)
    requires WalKept(st, wal) && RecordKept(st, wal + [r], |wal|)
    ensures WalKept(st, wal + [r])
  {
    forall k | 0 <= k < |wal + [r]|
      ensures RecordKept(st, wal + [r], k)
    {
      if k < |wal| {
        assert RecordKept(st, wal, k);
        assert (wal + [r])[..k] == wal[..k];
      }
    }
  }

  lemma FirstHalfStays(st: Streams, wal: seq<WalRecord>, n: nat, o: nat, upTo: Lsn, since: Lsn)
    requires n <= |wal| && FirstHalf(st, wal[..n], o, upTo, since)
    ensures FirstHalf(st, wal, o, upTo, since)
  {
    forall l: Lsn | Made(st, o, l) && l <= upTo
      ensures AppliedBefore(wal, o, l, since)
    {
      var k :| 0 <= k < n && IsRecordOf(wal[..n][k], o, l) && wal[..n][k].start < since;
      assert IsRecordOf(wal[k], o, l);
    }
  }

  /** Everything up to the latest syncpoint is applied. */
  lemma LatestApplied(st: Streams, wal: seq<WalRecord>, o: nat, l: Lsn)
    requires WalKept(st, wal) && Made(st, o, l) && 0 < l <= LatestSp(wal, o).originLsn
    ensures Applied(wal, o, l)
  {
    LatestSpIs(wal, o);
    var r :| 0 <= r < |wal| && IsRow(wal[r], o) && LatestSp(wal, o) == Syncpoint(wal[r].kind.upTo, wal[r].kind.since);
    assert RecordKept(st, wal, r) && AppliedBefore(wal[..r], o, l, wal[r].kind.since);
    var k :| 0 <= k < r && IsRecordOf(wal[..r][k], o, l);
    assert IsRecordOf(wal[k], o, l);
  }

  // ----- receivers -----

  /** A change the receiver has passed is applied, being applied, or bypassed; one to come is skipped only if it is applied. */
  ghost predicate TxSeen(st: Streams, w: Senders, me: nat, wal: seq<WalRecord>, d: nat, rc: Receiver, i: nat)
    requires d in st && i < |st[d]| && rc.Up?
  {
    Wanted(st, me, d, rc.mode, i) && st[d][i].Tx? ==>
      if i < rc.next then Applied(wal, st[d][i].origin, st[d][i].lsn) || i in rc.inflight || Bypassed(st, w, me, d, i)
      else Skipped(st, me, d, rc, i) ==> Applied(wal, st[d][i].origin, st[d][i].lsn)
  }

  ghost predicate ReceiverKept(st: Streams, w: Senders, me: nat, wal: seq<WalRecord>, d: nat, rc: Receiver)
    requires d in st
  {
    rc.Up? ==> forall i {:trigger TxSeen(st, w, me, wal, d, rc, i)} :: 0 <= i < |st[d]| ==> TxSeen(st, w, me, wal, d, rc, i)
  }

  ghost predicate Kept(st: Streams, w: Senders, me: nat, s: State) {
    && Inv(st, me, s) && ValidSenders(st, w, me) && WalKept(st, s.wal)
    && (forall d {:trigger ReceiverKept(st, w, me, s.wal, d, s.receivers[d])} :: d in st ==> ReceiverKept(st, w, me, s.wal, d, s.receivers[d]))
  }

  /** Whatever is logged, a receiver that stays where it is, and has nothing finished that is not logged, is all right. */
  lemma LongerKept(st: Streams, w: Senders, me: nat, wal: seq<WalRecord>, wal': seq<WalRecord>, d: nat, rc: Receiver, rc': Receiver)
    requires d in st && ReceiverKept(st, w, me, wal, d, rc) && wal <= wal'
    requires rc'.Up? ==> rc.Up? && rc' == rc.(inflight := rc'.inflight)
    requires rc'.Up? ==> forall i :: i in rc.inflight && i !in rc'.inflight && i < |st[d]| ==> Applied(wal', st[d][i].origin, st[d][i].lsn)
    ensures ReceiverKept(st, w, me, wal', d, rc')
  {
    if rc'.Up? {
      forall i | 0 <= i < |st[d]|
        ensures TxSeen(st, w, me, wal', d, rc', i)
      {
        assert TxSeen(st, w, me, wal, d, rc, i);
        if Applied(wal, st[d][i].origin, st[d][i].lsn) {
          assert wal == wal'[..|wal|];
          PrefixFacts(wal', |wal|, st[d][i].origin, st[d][i].lsn);
        }
      }
    }
  }

  lemma StartKept(st: Streams, w: Senders, me: nat, s: State, step: Step)
    requires Kept(st, w, me, s) && step.Start? && Enabled(st, me, s, step) && Begins(st, w, me, s, step)
    ensures ReceiverKept(st, w, me, s.wal, step.d, Up(step.mode, step.next, {}, step.filter, SpVector(st, s.wal, step.d, step.mode)))
  {
    var d, mode, v := step.d, step.mode, SpVector(st, s.wal, step.d, step.mode);
    var rc := Up(mode, step.next, {}, step.filter, v);
    var h :| StartsFrom(st, w, me, s.wal, d, mode, h) && Boundary(w[d].at, step.next, h);
    forall i | 0 <= i < |st[d]|
      ensures TxSeen(st, w, me, s.wal, d, rc, i)
    {
      var item := st[d][i];
      if Wanted(st, me, d, mode, i) && item.Tx? {
        WantedItem(st, me, d, mode, i);
        if i < step.next {
          BeforeStart(st, w, me, s, d, mode, h, i);
          if item.origin != d {
            BeforeHorizon(st, w, me, s, d, h, i);
          }
        } else {
          LatestLocal(st, s.wal, item.origin);
          FilterMade(st, s.wal, step.filter, step.from, if mode.Recovery? then 0 else d, v, item.origin, item.lsn);
        }
        if item.lsn <= LatestSp(s.wal, item.origin).originLsn {
          LatestApplied(st, s.wal, item.origin, item.lsn);
        }
      }
    }
  }

  lemma TakeKept(st: Streams, w: Senders, me: nat, s: State, d: nat)
    requires Kept(st, w, me, s) && Enabled(st, me, s, Take(d)) && !Registers(st, me, d, s.receivers[d])
    ensures ReceiverKept(st, w, me, s.wal, d, Apply(st, me, s, Take(d)).receivers[d])
  {
    var rc, rc' := s.receivers[d], Apply(st, me, s, Take(d)).receivers[d];
    assert ReceiverKept(st, w, me, s.wal, d, rc);
    forall i | 0 <= i < |st[d]|
      ensures TxSeen(st, w, me, s.wal, d, rc', i)
    {
      assert TxSeen(st, w, me, s.wal, d, rc, i);
    }
  }

  /** What a syncpoint that is being registered has before it. */
  lemma SyncFirstHalf(st: Streams, w: Senders, me: nat, s: State, d: nat, since: Lsn)
    requires Kept(st, w, me, s) && NoneOvertaken(st, w, me) && Enabled(st, me, s, Take(d)) && Registers(st, me, d, s.receivers[d]) && since > |s.wal|
    ensures FirstHalf(st, s.wal, st[d][s.receivers[d].next].origin, st[d][s.receivers[d].next].lsn, since)
  {
    var rc := s.receivers[d];
    var o, upTo := st[d][rc.next].origin, st[d][rc.next].lsn;
    assert StreamOK(st, me, d) && CompleteAt(st, me, d, rc.next) && ReceiverKept(st, w, me, s.wal, d, rc);
    forall l: Lsn | Made(st, o, l) && l <= upTo
      ensures AppliedBefore(s.wal, o, l, since)
    {
      assert TxBefore(st[d], rc.next, o, l);
      var i :| 0 <= i < rc.next && IsTx(st[d][i], o, l);
      assert TxSeen(st, w, me, s.wal, d, rc, i) && CoveredAt(st[d], i, rc.next);
      assert !Overtaken(st, w, me, d, i);
      var k :| 0 <= k < |s.wal| && IsRecordOf(s.wal[k], o, l);
      assert RecordOK(st, s.wal, k);
    }
  }

  lemma SyncKeptWal(st: Streams, w: Senders, me: nat, s: State, d: nat)
    requires Kept(st, w, me, s) && NoneOvertaken(st, w, me) && Enabled(st, me, s, Take(d)) && Registers(st, me, d, s.receivers[d])
    ensures WalKept(st, Apply(st, me, s, Take(d)).wal)
  {
    var wal, rc := s.wal, s.receivers[d];
    var o, l := st[d][rc.next].origin, st[d][rc.next].lsn;
    var wal1 := if o == d then Logged(wal, Own, Mark(o, l), 0) else wal;
    assert wal1[..|wal|] == wal;
    if o == d {
      SyncFirstHalf(st, w, me, s, d, |wal| + 1);
      KeptAppend(st, wal, wal1[|wal|]);
    }
    if !HasExactly(wal, o, l) {
      var since := |wal1| + 1;
      SyncFirstHalf(st, w, me, s, d, since);
      FirstHalfStays(st, wal1, |wal|, o, l, since);
      var row := WalRecord(since, Own, Registration(o, l, since), 0);
      assert (wal1 + [row])[..|wal1|] == wal1;
      KeptAppend(st, wal1, row);
    }
  }

  lemma SyncKept(st: Streams, w: Senders, me: nat, s: State, d: nat)
    requires Kept(st, w, me, s) && NoneOvertaken(st, w, me) && Enabled(st, me, s, Take(d)) && Registers(st, me, d, s.receivers[d])
    ensures Kept(st, w, me, Apply(st, me, s, Take(d)))
  {
    var s', item := Apply(st, me, s, Take(d)), st[d][s.receivers[d].next];
    SyncOK(st, me, s, d);
    SyncKeptWal(st, w, me, s, d);
    RegisteredHas(s.wal, item.origin, item.lsn, item.origin == d);
    forall x | x in st
      ensures ReceiverKept(st, w, me, s'.wal, x, s'.receivers[x])
    {
      assert ReceiverKept(st, w, me, s.wal, x, s.receivers[x]);
      LongerKept(st, w, me, s.wal, s'.wal, x, s.receivers[x], s.receivers[x]);
      if x == d {
        var rc, rc' := s.receivers[d], s'.receivers[d];
        forall i | 0 <= i < |st[d]|
          ensures TxSeen(st, w, me, s'.wal, d, rc', i)
        {
          assert TxSeen(st, w, me, s'.wal, d, rc, i);
        }
      }
    }
  }

  lemma FinishKept(st: Streams, w: Senders, me: nat, s: State, d: nat, i: nat)
    requires Kept(st, w, me, s) && Enabled(st, me, s, Finish(d, i))
    ensures Kept(st, w, me, Apply(st, me, s, Finish(d, i)))
  {
    var s' := Apply(st, me, s, Finish(d, i));
    FinishOK(st, me, s, d, i);
    FinishWal(st, me, s, d, i);
    assert StreamOK(st, me, d) && ItemOK(st, me, d, i);
    KeptAppend(st, s.wal, s'.wal[|s.wal|]);
    assert IsRecordOf(s'.wal[|s.wal|], st[d][i].origin, st[d][i].lsn);
    forall x | x in st
      ensures ReceiverKept(st, w, me, s'.wal, x, s'.receivers[x])
    {
      assert ReceiverKept(st, w, me, s.wal, x, s.receivers[x]);
      LongerKept(st, w, me, s.wal, s'.wal, x, s.receivers[x], s'.receivers[x]);
    }
  }

  lemma LogKept(st: Streams, w: Senders, me: nat, s: State)
    requires Kept(st, w, me, s) && Enabled(st, me, s, Log)
    ensures Kept(st, w, me, Apply(st, me, s, Log))
  {
    var s' := Apply(st, me, s, Log);
    LogOK(st, me, s);
    KeptAppend(st, s.wal, s'.wal[|s.wal|]);
    forall x | x in st
      ensures ReceiverKept(st, w, me, s'.wal, x, s'.receivers[x])
    {
      assert ReceiverKept(st, w, me, s.wal, x, s.receivers[x]);
      LongerKept(st, w, me, s.wal, s'.wal, x, s.receivers[x], s.receivers[x]);
    }
  }

  lemma OthersKept(st: Streams, w: Senders, me: nat, s: State, s': State, d: nat)
    requires Kept(st, w, me, s) && Inv(st, me, s') && s'.wal == s.wal && d in st
    requires forall x :: x in st && x != d ==> s'.receivers[x] == s.receivers[x]
    requires ReceiverKept(st, w, me, s'.wal, d, s'.receivers[d])
    ensures Kept(st, w, me, s')
  {
    forall x | x in st
      ensures ReceiverKept(st, w, me, s'.wal, x, s'.receivers[x])
    {
      assert x != d ==> ReceiverKept(st, w, me, s.wal, x, s.receivers[x]);
    }
  }

  lemma StepKept(st: Streams, w: Senders, me: nat, s: State, step: Step)
    requires Kept(st, w, me, s) && NoneOvertaken(st, w, me) && Enabled(st, me, s, step) && Begins(st, w, me, s, step)
    ensures Kept(st, w, me, Apply(st, me, s, step))
  {
    var s' := Apply(st, me, s, step);
    StepInv(st, w, me, s, step);
    match step
    case Start(d, mode, next, filter, from) =>
      StartKept(st, w, me, s, step);
      OthersKept(st, w, me, s, s', d);
    case Take(d) =>
      if Registers(st, me, d, s.receivers[d]) {
        SyncKept(st, w, me, s, d);
      } else {
        TakeKept(st, w, me, s, d);
        OthersKept(st, w, me, s, s', d);
      }
    case Finish(d, i) => FinishKept(st, w, me, s, d, i);
    case Log => LogKept(st, w, me, s);
    case Flush(n) =>
      forall x | x in st
        ensures ReceiverKept(st, w, me, s'.wal, x, s'.receivers[x])
      {
        assert ReceiverKept(st, w, me, s.wal, x, s.receivers[x]);
      }
    case Stop(d) => OthersKept(st, w, me, s, s', d);
    case Crash(n) => KeptPrefix(st, s.wal, n);
  }

  // ----- whole runs -----

  lemma {:induction false} RunKept(st: Streams, w: Senders, me: nat, run: seq<State>, i: nat)
    requires Run(st, w, me, run) && NoneOvertaken(st, w, me) && i < |run|
    ensures Kept(st, w, me, run[i])
  {
    if i > 0 {
      RunKept(st, w, me, run, i - 1);
      assert StepAt(st, w, me, run, i - 1);
      var step :| Enabled(st, me, run[i - 1], step) && Begins(st, w, me, run[i - 1], step) && run[i] == Apply(st, me, run[i - 1], step);
      StepKept(st, w, me, run[i - 1], step);
    }
  }

  /** In every run: a change that a receiver has passed is applied or being applied, unless it is one of those bypassed. */
  lemma NothingLost(st: Streams, w: Senders, me: nat, run: seq<State>, i: nat, d: nat, k: nat)
    requires Run(st, w, me, run) && NoneOvertaken(st, w, me) && i < |run| && d in st && d in run[i].receivers && run[i].receivers[d].Up?
    requires k < run[i].receivers[d].next && k < |st[d]| && Wanted(st, me, d, run[i].receivers[d].mode, k) && st[d][k].Tx?
    ensures Applied(run[i].wal, st[d][k].origin, st[d][k].lsn) || k in run[i].receivers[d].inflight || Bypassed(st, w, me, d, k)
  {
    RunKept(st, w, me, run, i);
    assert ReceiverKept(st, w, me, run[i].wal, d, run[i].receivers[d]);
    assert TxSeen(st, w, me, run[i].wal, d, run[i].receivers[d], k);
  }

  /** In every run: a change that a receiver is about to skip is in the WAL already. */
  lemma SkipsOnlyApplied(st: Streams, w: Senders, me: nat, run: seq<State>, i: nat, d: nat, k: nat)
    requires Run(st, w, me, run) && NoneOvertaken(st, w, me) && i < |run| && d in st && d in run[i].receivers && run[i].receivers[d].Up?
    requires run[i].receivers[d].next <= k < |st[d]| && Wanted(st, me, d, run[i].receivers[d].mode, k) && st[d][k].Tx?
    requires Skipped(st, me, d, run[i].receivers[d], k)
    ensures Applied(run[i].wal, st[d][k].origin, st[d][k].lsn)
  {
    RunKept(st, w, me, run, i);
    assert ReceiverKept(st, w, me, run[i].wal, d, run[i].receivers[d]);
    assert TxSeen(st, w, me, run[i].wal, d, run[i].receivers[d], k);
  }

  /** In every run: every registered syncpoint, direct or forwarded, keeps the first half of its row's contract. */
  lemma RowsKeepFirstHalf(st: Streams, w: Senders, me: nat, run: seq<State>, i: nat, r: nat)
    requires Run(st, w, me, run) && NoneOvertaken(st, w, me) && i < |run| && r < |run[i].wal| && run[i].wal[r].kind.Registration?
    ensures var row := run[i].wal[r].kind; FirstHalf(st, run[i].wal, row.about, row.upTo, row.since)
  {
    RunKept(st, w, me, run, i);
    assert RecordKept(st, run[i].wal, r);
    FirstHalfStays(st, run[i].wal, r, run[i].wal[r].kind.about, run[i].wal[r].kind.upTo, run[i].wal[r].kind.since);
  }
}

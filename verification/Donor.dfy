/**
  A node as the sender of others.  What it logs of others' changes and syncpoints is again a stream
  as ApplyRun expects it, and nothing that a reader misses lies before the recovery horizon that the
  reader computes from the node's syncpoint table.  Both hold of nodes that read marked streams; the
  horizon is right in all runs only with them.
 */
module Donor {
  import SP = Syncpoints
  import opened RecoveryFilter
  import opened ApplyRun
  import opened ApplyKept
  import opened ApplyMarked
  import opened ApplyExact

  // ----- marks and rows -----

  /** A mark is about a syncpoint, and comes after the earlier syncpoints and marks of its origin. */
  ghost predicate RecordOffers(st: Streams, wal: seq<WalRecord>, k: nat)
    requires k < |wal|
  {
    var kind := wal[k].kind;
    kind.Mark? ==>
      && SyncOf(st, kind.about, kind.upTo) && kind.upTo > 0
      && (forall l: Lsn {:trigger SyncOf(st, kind.about, l)} :: SyncOf(st, kind.about, l) && l < kind.upTo ==> HasRow(wal[..k], kind.about, l))
      && (forall m {:trigger wal[m]} :: 0 <= m < k && wal[m].kind.Mark? && wal[m].kind.about == kind.about ==> wal[m].kind.upTo <= kind.upTo)
  }

  ghost predicate Offers(st: Streams, wal: seq<WalRecord>) {
    forall k {:trigger RecordOffers(st, wal, k)} :: 0 <= k < |wal| ==> RecordOffers(st, wal, k)
  }

  lemma OffersPrefix(st: Streams, wal: seq<WalRecord>, n: nat)
    requires Offers(st, wal) && n <= |wal|
    ensures Offers(st, wal[..n])
  {
    forall k | 0 <= k < n
      ensures RecordOffers(st, wal[..n], k)
    {
      assert RecordOffers(st, wal, k);
      assert wal[..n][..k] == wal[..k];
    }
  }

  lemma OffersAppend(st: Streams, wal: seq<WalRecord>, r: WalRecord)
    requires Offers(st, wal) && RecordOffers(st, wal + [r], |wal|)
    ensures Offers(st, wal + [r])
  {
    forall k | 0 <= k < |wal + [r]|
      ensures RecordOffers(st, wal + [r], k)
    {
      if k < |wal| {
        assert RecordOffers(st, wal, k);
        assert (wal + [r])[..k] == wal[..k];
      }
    }
  }

  /** A syncpoint received from its origin comes after the earlier ones, and after all marks of that origin. */
  lemma MarkOffers(st: Streams, me: nat, s: State, d: nat)
    requires Inv(st, me, s) && Offers(st, s.wal) && Enabled(st, me, s, Take(d)) && Registers(st, me, d, s.receivers[d])
    requires st[d][s.receivers[d].next].origin == d
    ensures RecordOffers(st, Logged(s.wal, Own, Mark(d, st[d][s.receivers[d].next].lsn), 0), |s.wal|)
  {
    var rc, wal := s.receivers[d], s.wal;
    var upTo := st[d][rc.next].lsn;
    var wal' := Logged(wal, Own, Mark(d, upTo), 0);
    assert wal'[..|wal|] == wal;
    WantedItem(st, me, d, rc.mode, rc.next);
    assert ReceiverOK(st, me, wal, d, rc) && StreamOK(st, me, d) && st[d][rc.next] == Sync(d, upTo);
    forall l: Lsn | SyncOf(st, d, l) && l < upTo
      ensures HasRow(wal, d, l)
    {
      var i :| 0 <= i < |st[d]| && st[d][i] == Sync(d, l);
      OwnOrder(st, me, d, i, rc.next);
      assert SyncSeen(st, me, wal, d, rc, i) && Wanted(st, me, d, rc.mode, i);
    }
    forall r | 0 <= r < |wal| && IsRow(wal[r], d)
      ensures wal[r].kind.upTo < upTo
    {
      assert PassedRow(st, wal, d, rc, r);
    }
    forall m | 0 <= m < |wal| && wal[m].kind.Mark? && wal[m].kind.about == d
      ensures wal[m].kind.upTo <= upTo
    {
      assert !HasRow(wal[..m], d, upTo);
      assert RecordOffers(st, wal, m) && SyncOf(st, d, upTo);
    }
  }

  lemma SyncOffers(st: Streams, me: nat, s: State, d: nat)
    requires Inv(st, me, s) && Offers(st, s.wal) && Enabled(st, me, s, Take(d)) && Registers(st, me, d, s.receivers[d])
    ensures Offers(st, Apply(st, me, s, Take(d)).wal)
  {
    var rc, wal := s.receivers[d], s.wal;
    var o, l := st[d][rc.next].origin, st[d][rc.next].lsn;
    WantedItem(st, me, d, rc.mode, rc.next);
    assert StreamOK(st, me, d) && ItemOK(st, me, d, rc.next) && st[d][rc.next] == Sync(o, l);
    var wal1 := if o == d then Logged(wal, Own, Mark(o, l), 0) else wal;
    if o == d {
      MarkOffers(st, me, s, d);
      OffersAppend(st, wal, wal1[|wal|]);
    }
    if !HasExactly(wal, o, l) {
      OffersAppend(st, wal1, WalRecord(|wal1| + 1, Own, Registration(o, l, |wal1| + 1), 0));
    }
  }

  lemma StepOffers(st: Streams, w: Senders, me: nat, s: State, s': State)
    requires Inv(st, me, s) && Offers(st, s.wal) && Next(st, w, me, s, s')
    ensures Offers(st, s'.wal)
  {
    var step :| Enabled(st, me, s, step) && Begins(st, w, me, s, step) && s' == Apply(st, me, s, step);
    match step {
      case Take(d) =>
        if Registers(st, me, d, s.receivers[d]) {
          SyncOffers(st, me, s, d);
        }
      case Finish(d, i) =>
        assert StreamOK(st, me, d) && ItemOK(st, me, d, i);
        if st[d][i].Tx? {
          OffersAppend(st, s.wal, s'.wal[|s.wal|]);
        }
      case Log => OffersAppend(st, s.wal, s'.wal[|s.wal|]);
      case Crash(n) => OffersPrefix(st, s.wal, n);
      case _ =>
    }
  }

  lemma {:induction false} RunOffers(st: Streams, w: Senders, me: nat, run: seq<State>, i: nat)
    requires Run(st, w, me, run) && i < |run|
    ensures Offers(st, run[i].wal)
  {
    if i > 0 {
      RunOffers(st, w, me, run, i - 1);
      RunInv(st, w, me, run, i - 1);
      assert StepAt(st, w, me, run, i - 1);
      StepOffers(st, w, me, run[i - 1], run[i]);
    }
  }

  // ----- what it emits is a stream -----

  /** Records emit in their order. */
  lemma EmittedOrder(wal: seq<WalRecord>, m: nat, n: nat)
    requires m <= n <= |wal|
    ensures Emitted(wal[..m]) <= Emitted(wal[..n]) <= Emitted(wal)
  {
    assert wal[..n][..m] == wal[..m];
    EmittedPrefix(wal[..n], m);
    EmittedPrefix(wal, n);
  }

  /** What record n emits, if anything. */
  lemma EmitsNext(wal: seq<WalRecord>, n: nat)
    requires n < |wal|
    ensures Emitted(wal[..n + 1]) == if IsTransaction(wal[n]) && wal[n].origin.Node? then Emitted(wal[..n]) + [Tx(wal[n].origin.id, wal[n].kind, wal[n].originLsn)]
                                     else if wal[n].kind.Mark? then Emitted(wal[..n]) + [Sync(wal[n].kind.about, wal[n].kind.upTo)]
                                     else Emitted(wal[..n])
  {
    var upTo := wal[..n + 1];
    assert upTo[..n] == wal[..n] && upTo[n] == wal[n];
  }

  /** The record that emits item k. */
  ghost predicate Emits(wal: seq<WalRecord>, k: nat, n: nat) {
    && n < |wal| && k < |Emitted(wal)| && |Emitted(wal[..n])| == k
    && if Emitted(wal)[k].Tx? then IsRecordOf(wal[n], Emitted(wal)[k].origin, Emitted(wal)[k].lsn) && wal[n].kind == Emitted(wal)[k].kind
       else wal[n].kind == Mark(Emitted(wal)[k].origin, Emitted(wal)[k].lsn)
  }

  lemma EmitterOf(wal: seq<WalRecord>, k: nat) returns (n: nat)
    requires k < |Emitted(wal)|
    ensures Emits(wal, k, n)
  {
    n := EmittedAt(wal, k);
    EmitsNext(wal, n);
    var e := Emitted(wal[..n]);
    assert (e + [Emitted(wal)[k]])[k] == Emitted(wal)[k];
  }

  /** Items come from records in the same order. */
  lemma EmittersOrdered(wal: seq<WalRecord>, i: nat, m: nat, j: nat, n: nat)
    requires Emits(wal, i, m) && Emits(wal, j, n) && i < j
    ensures m < n
  {
    if n <= m {
      EmittedOrder(wal, n, m);
    }
  }

  /** A change applied before record n is among the items before it. */
  lemma AppliedEmitted(wal: seq<WalRecord>, a: nat, n: nat, o: nat, l: Lsn)
    requires a < n <= |wal| && IsRecordOf(wal[a], o, l)
    ensures TxBefore(Emitted(wal), |Emitted(wal[..n])|, o, l)
  {
    EmitsNext(wal, a);
    EmittedOrder(wal, a + 1, n);
    EmittedOrder(wal, a + 1, |wal|);
    var e := Emitted(wal[..a + 1]);
    assert IsTx(e[|e| - 1], o, l);
    assert IsTx(Emitted(wal)[|e| - 1], o, l);
  }

  /** Every item was made, or logged as a syncpoint, by its origin. */
  lemma EmitsMade(st: Streams, wal: seq<WalRecord>, k: nat)
    requires WalOK(st, wal) && Offers(st, wal) && k < |Emitted(wal)|
    ensures var item := Emitted(wal)[k]; if item.Tx? then Made(st, item.origin, item.lsn) else SyncOf(st, item.origin, item.lsn)
  {
    var n := EmitterOf(wal, k);
    assert RecordOK(st, wal, n) && RecordOffers(st, wal, n);
  }

  /** A syncpoint comes after everything that its origin made before it. */
  lemma EmitsComplete(st: Streams, wal: seq<WalRecord>, k: nat, l: Lsn)
    requires WalKept(st, wal) && k < |Emitted(wal)| && Emitted(wal)[k].Sync?
    requires Made(st, Emitted(wal)[k].origin, l) && l <= Emitted(wal)[k].lsn
    ensures TxBefore(Emitted(wal), k, Emitted(wal)[k].origin, l)
  {
    var n := EmitterOf(wal, k);
    var o := Emitted(wal)[k].origin;
    assert RecordKept(st, wal, n) && AppliedBefore(wal[..n], o, l, n + 1);
    var a :| 0 <= a < n && IsRecordOf(wal[..n][a], o, l);
    AppliedEmitted(wal, a, n, o, l);
  }

  /** With marked streams no change is there twice, and syncpoints of an origin do not go back. */
  lemma EmitsOrdered(st: Streams, wal: seq<WalRecord>, me: nat, i: nat, j: nat)
    requires WalOK(st, wal) && WalSafe(st, wal) && Offers(st, wal) && i < j < |Emitted(wal)| && me !in st
    ensures PairOK(me, Emitted(wal)[i], Emitted(wal)[j])
  {
    var m := EmitterOf(wal, i);
    var n := EmitterOf(wal, j);
    EmittersOrdered(wal, i, m, j, n);
    var a, b := Emitted(wal)[i], Emitted(wal)[j];
    EmitsMade(st, wal, i);
    if a.origin == b.origin && a.Tx? && b.Tx? {
      if a.lsn == b.lsn {
        AppliedOnce(st, wal, m, n, a.origin, a.lsn);
        assert false;
      }
    } else if a.origin == b.origin && a.Sync? && b.Sync? {
      assert RecordOffers(st, wal, n) && wal[m].kind.Mark?;
    }
  }

  lemma NotOwn(st: Streams, me: nat)
    requires ValidStreams(st, me)
    ensures me !in st
  {
    forall d | d in st
      ensures d != me
    {
      assert StreamOK(st, me, d);
    }
  }

  /** In every run that reads marked streams with nothing overtaken, what the node logs of others is a stream for others. */
  lemma EmitsStream(st: Streams, w: Senders, me: nat, run: seq<State>, i: nat)
    requires Run(st, w, me, run) && Marked(st, me) && NoneOvertaken(st, w, me) && i < |run|
    ensures var e := Emitted(run[i].wal);
            && (forall k :: 0 <= k < |e| ==> if e[k].Tx? then Made(st, e[k].origin, e[k].lsn) else SyncOf(st, e[k].origin, e[k].lsn))
            && (forall j, k :: 0 <= j < k < |e| ==> PairOK(me, e[j], e[k]))
            && (forall k, l: Lsn :: 0 <= k < |e| && e[k].Sync? && Made(st, e[k].origin, l) && l <= e[k].lsn ==> TxBefore(e, k, e[k].origin, l))
  {
    RunSafe(st, w, me, run, i);
    RunKept(st, w, me, run, i);
    RunOffers(st, w, me, run, i);
    NotOwn(st, me);
    var wal := run[i].wal;
    var e := Emitted(wal);
    forall k | 0 <= k < |e|
      ensures if e[k].Tx? then Made(st, e[k].origin, e[k].lsn) else SyncOf(st, e[k].origin, e[k].lsn)
    {
      EmitsMade(st, wal, k);
    }
    forall j, k | 0 <= j < k < |e|
      ensures PairOK(me, e[j], e[k])
    {
      EmitsOrdered(st, wal, me, j, k);
    }
    forall k, l: Lsn | 0 <= k < |e| && e[k].Sync? && Made(st, e[k].origin, l) && l <= e[k].lsn
      ensures TxBefore(e, k, e[k].origin, l)
    {
      EmitsComplete(st, wal, k, l);
    }
  }

  // ----- the horizon -----

  /** Rows that the node has registered: a copy of its table, which may be stale, and with rows cleaned up. */
  ghost predicate RowsFrom(rows: SP.Rows, wal: seq<WalRecord>) {
    forall k :: k in rows ==> RowIn(wal, k.0, k.1, rows[k])
  }

  ghost predicate RowIn(wal: seq<WalRecord>, o: nat, upTo: Lsn, since: Lsn) {
    exists r :: 0 <= r < |wal| && wal[r].kind == Registration(o, upTo, since)
  }

  /** A change that lies before the translation of a position does not end beyond that position. */
  lemma TranslationCovers(st: Streams, wal: seq<WalRecord>, rows: SP.Rows, o: nat, latest: Lsn, n: nat, l: Lsn)
    requires WalOK(st, wal) && WalSafe(st, wal) && RowsFrom(rows, wal) && n < |wal|
    requires IsRecordOf(wal[n], o, l) && wal[n].start < SP.EmitterLsn(rows, o, latest)
    ensures l <= latest
  {
    var upTo := SP.TranslateLsn(rows, o, latest).value;
    assert RowIn(wal, o, upTo, rows[(o, upTo)]);
    var r :| 0 <= r < |wal| && wal[r].kind == Registration(o, upTo, rows[(o, upTo)]);
    SecondHolds(st, wal, r);
  }

  /** A row about an earlier syncpoint lies before a mark. */
  lemma RowBeforeMark(st: Streams, wal: seq<WalRecord>, r: nat, n: nat)
    requires WalOK(st, wal) && Offers(st, wal) && r < |wal| && n < |wal| && wal[n].kind.Mark?
    requires IsRow(wal[r], wal[n].kind.about) && wal[r].kind.upTo < wal[n].kind.upTo
    ensures r < n
  {
    var o, upTo := wal[n].kind.about, wal[r].kind.upTo;
    assert RecordOK(st, wal, r) && RecordOffers(st, wal, r) && RecordOffers(st, wal, n);
    var q :| 0 <= q < n && IsRow(wal[..n][q], o) && wal[..n][q].kind.upTo >= upTo;
    forall p | 0 <= p < r && IsRow(wal[p], o)
      ensures wal[p].kind.upTo < upTo
    {
      assert wal[..r][p] == wal[p];
    }
    assert wal[..n][q] == wal[q];
  }

  /** Nor does a mark. */
  lemma TranslationCoversMark(st: Streams, wal: seq<WalRecord>, rows: SP.Rows, o: nat, latest: Lsn, n: nat, l: Lsn)
    requires WalOK(st, wal) && Offers(st, wal) && RowsFrom(rows, wal) && n < |wal|
    requires wal[n].kind == Mark(o, l) && wal[n].start < SP.EmitterLsn(rows, o, latest)
    ensures l <= latest
  {
    var upTo := SP.TranslateLsn(rows, o, latest).value;
    assert RowIn(wal, o, upTo, rows[(o, upTo)]);
    var r :| 0 <= r < |wal| && wal[r].kind == Registration(o, upTo, rows[(o, upTo)]);
    assert RecordOK(st, wal, r) && RecordOK(st, wal, n);
    if upTo < l {
      RowBeforeMark(st, wal, r, n);
      assert false;
    }
  }

  /** The latest syncpoint in a copy of the table is not beyond the latest in the WAL. */
  lemma LatestInCopy(rows: SP.Rows, wal: seq<WalRecord>, o: nat)
    requires RowsFrom(rows, wal)
    ensures SP.LatestLsn(rows, o) <= LatestSp(wal, o).originLsn
  {
    LatestSpIs(wal, o);
    var l := SP.LatestLsn(rows, o);
    if l > 0 {
      assert RowIn(wal, o, l, rows[(o, l)]);
    }
  }

  /**
    What a node that read marked streams emits before the horizon of a reader is covered by the reader's latest syncpoints,
    whatever copies of the syncpoint tables the horizon was computed from.
   */
  lemma HorizonStart(st: Streams, wal: seq<WalRecord>, view: SP.View, nodes: set<nat>, sender: nat, reader: nat, readerWal: seq<WalRecord>, n: nat, i: nat)
    requires WalOK(st, wal) && WalSafe(st, wal) && Offers(st, wal) && n <= |wal| && i < |Emitted(wal[..n])|
    requires RowsFrom(SP.RowsOf(view, sender), wal) && RowsFrom(SP.RowsOf(view, reader), readerWal)
    requires SP.Horizon(view, nodes, reader, sender).Some? && n < SP.Horizon(view, nodes, reader, sender).value
    requires Emitted(wal[..n])[i].origin in nodes && Emitted(wal[..n])[i].origin !in {reader, sender}
    ensures Emitted(wal[..n])[i].lsn <= LatestSp(readerWal, Emitted(wal[..n])[i].origin).originLsn
  {
    var m := EmitterOf(wal[..n], i);
    var item := Emitted(wal[..n])[i];
    assert wal[..n][m] == wal[m] && RecordOK(st, wal, m);
    var rows, latest := SP.RowsOf(view, sender), SP.LatestLsn(SP.RowsOf(view, reader), item.origin);
    assert SP.HorizonTerm(view, reader, sender, item.origin) in SP.HorizonTerms(view, nodes, reader, sender);
    if item.Tx? {
      TranslationCovers(st, wal, rows, item.origin, latest, m, item.lsn);
    } else {
      TranslationCoversMark(st, wal, rows, item.origin, latest, m, item.lsn);
    }
    LatestInCopy(SP.RowsOf(view, reader), readerWal, item.origin);
  }

  /** And what is the node's own ends, before the horizon, not beyond the reader's latest syncpoint of the node. */
  lemma HorizonStartOwn(st: Streams, wal: seq<WalRecord>, view: SP.View, nodes: set<nat>, sender: nat, reader: nat, readerWal: seq<WalRecord>, n: nat)
    requires WalOK(st, wal) && n < |wal| && RowsFrom(SP.RowsOf(view, reader), readerWal) && sender in nodes && sender != reader
    requires SP.Horizon(view, nodes, reader, sender).Some? && wal[n].start < SP.Horizon(view, nodes, reader, sender).value
    ensures wal[n].start + 1 <= LatestSp(readerWal, sender).originLsn
  {
    assert SP.HorizonTerm(view, reader, sender, sender) in SP.HorizonTerms(view, nodes, reader, sender);
    LatestInCopy(SP.RowsOf(view, reader), readerWal, sender);
  }

  /** A row of the node lies before the marks, and with marked streams also before the changes, of its origin that are beyond it: the node bypasses nothing. */
  lemma EmitsSettled(st: Streams, wal: seq<WalRecord>, k: nat, n: nat, upTo: Lsn)
    requires WalOK(st, wal) && Offers(st, wal) && Emits(wal, k, n) && upTo < Emitted(wal)[k].lsn && (Emitted(wal)[k].origin, upTo) in TableOf(wal)
    requires Emitted(wal)[k].Tx? ==> WalSafe(st, wal)
    ensures TableOf(wal)[(Emitted(wal)[k].origin, upTo)] <= wal[n].start
  {
    var item := Emitted(wal)[k];
    var since := TableOf(wal)[(item.origin, upTo)];
    TableIs(st, wal);
    assert RowIn(wal, item.origin, upTo, since);
    var r :| 0 <= r < |wal| && wal[r].kind == Registration(item.origin, upTo, since);
    if item.Tx? {
      SecondHolds(st, wal, r);
    } else {
      RowBeforeMark(st, wal, r, n);
      assert RecordOK(st, wal, r) && RecordOK(st, wal, n);
    }
  }

  /** It holds every registered syncpoint. */
  lemma {:induction false} TableIs(st: Streams, wal: seq<WalRecord>)
    requires WalOK(st, wal)
    ensures RowsFrom(TableOf(wal), wal)
    ensures forall r :: 0 <= r < |wal| && wal[r].kind.Registration? ==>
              var k := wal[r].kind; (k.about, k.upTo) in TableOf(wal) && TableOf(wal)[(k.about, k.upTo)] == k.since
  {
    if wal != [] {
      var init := wal[..|wal| - 1];
      WalPrefix(st, wal, |wal| - 1);
      TableIs(st, init);
      assert RecordOK(st, wal, |wal| - 1);
      forall k | k in TableOf(wal)
        ensures RowIn(wal, k.0, k.1, TableOf(wal)[k])
      {
        if k in TableOf(init) && TableOf(wal)[k] == TableOf(init)[k] {
          assert RowIn(init, k.0, k.1, TableOf(init)[k]);
          var r :| 0 <= r < |init| && init[r].kind == Registration(k.0, k.1, TableOf(init)[k]);
          assert wal[r] == init[r];
        }
      }
      forall r | 0 <= r < |wal| && wal[r].kind.Registration?
        ensures var k := wal[r].kind; (k.about, k.upTo) in TableOf(wal) && TableOf(wal)[(k.about, k.upTo)] == k.since
      {
        if r < |init| {
          assert wal[r] == init[r] && IsRow(init[r], wal[r].kind.about);
        }
      }
    }
  }

  /** A syncpoint that a receiver of either mode registers is newer than those the table has of its origin. */
  lemma RegistersNewer(st: Streams, me: nat, s: State, d: nat, since: Lsn)
    requires Inv(st, me, s) && Enabled(st, me, s, Take(d)) && Registers(st, me, d, s.receivers[d]) && since > |s.wal|
    requires !HasExactly(s.wal, st[d][s.receivers[d].next].origin, st[d][s.receivers[d].next].lsn)
    ensures SP.Newer(TableOf(s.wal), st[d][s.receivers[d].next].origin, st[d][s.receivers[d].next].lsn, since)
  {
    TableIs(st, s.wal);
    SyncNewest(st, me, s, d, since);
    var o, l := st[d][s.receivers[d].next].origin, st[d][s.receivers[d].next].lsn;
    forall m | (o, m) in TableOf(s.wal)
      ensures m < l && TableOf(s.wal)[(o, m)] <= since
    {
      assert RowIn(s.wal, o, m, TableOf(s.wal)[(o, m)]);
      var r :| 0 <= r < |s.wal| && s.wal[r].kind == Registration(o, m, TableOf(s.wal)[(o, m)]);
      assert IsRow(s.wal[r], o);
    }
  }

  /** No change beyond a position lies before its translation. */
  ghost predicate TranslationsHold(s: State) {
    forall o: nat, latest: Lsn, n, l: Lsn {:trigger IsRecordOf(s.wal[n], o, l), SP.EmitterLsn(TableOf(s.wal), o, latest)} ::
      0 <= n < |s.wal| && IsRecordOf(s.wal[n], o, l) && s.wal[n].start < SP.EmitterLsn(TableOf(s.wal), o, latest) ==> l <= latest
  }

  /** Where a row's contract fails, the translation of its own position is wrong. */
  lemma BadRowTranslates(st: Streams, s: State)
    requires WalOK(st, s.wal) && TranslationsHold(s)
    ensures RowsHold(s)
  {
    TableIs(st, s.wal);
    forall r | 0 <= r < |s.wal| && s.wal[r].kind.Registration?
      ensures SecondHalf(s.wal, s.wal[r].kind.about, s.wal[r].kind.upTo, s.wal[r].kind.since)
    {
      var k := s.wal[r].kind;
      SP.EmitterExact(TableOf(s.wal), k.about, k.upTo);
    }
  }

  /** In all runs positions are translated right if and only if the streams read are marked. */
  lemma TranslationsIffMarked(st: Streams, w: Senders, me: nat)
    requires ValidStreams(st, me) && ValidSenders(st, w, me) && Short(st)
    ensures Marked(st, me) <==> forall s :: Reach(st, w, me, s) ==> TranslationsHold(s)
  {
    if Marked(st, me) {
      forall s | Reach(st, w, me, s)
        ensures TranslationsHold(s)
      {
        ReachSafe(st, w, me, s);
        TableIs(st, s.wal);
        forall o: nat, latest: Lsn, n, l: Lsn
          | 0 <= n < |s.wal| && IsRecordOf(s.wal[n], o, l) && s.wal[n].start < SP.EmitterLsn(TableOf(s.wal), o, latest)
          ensures l <= latest
        {
          TranslationCovers(st, s.wal, TableOf(s.wal), o, latest, n, l);
        }
      }
    } else {
      GapExists(st, me);
      var d, k, upTo :| IsGap(st, me, d, k, upTo);
      var late, start, twice := GapFails(st, w, me, d, k, upTo);
      ReachInv(st, w, me, late);
      if TranslationsHold(late) {
        BadRowTranslates(st, late);
      }
    }
  }

  /** The horizon that a reader with these rows computes towards me. */
  function ReaderHorizon(s: State, me: nat, nodes: set<nat>, reader: nat, rows: SP.Rows): SP.Option<Lsn> {
    SP.Horizon(map[reader := rows, me := TableOf(s.wal)], nodes, reader, me)
  }

  /** No change that a reader's syncpoints do not cover lies before the reader's horizon. */
  ghost predicate HorizonsHold(me: nat, s: State) {
    forall nodes: set<nat>, reader: nat, rows: SP.Rows, n: nat, o: nat, l: Lsn
      {:trigger ReaderHorizon(s, me, nodes, reader, rows), IsRecordOf(s.wal[n], o, l)} ::
      && reader != me && o in nodes && o != reader && o != me && n < |s.wal| && IsRecordOf(s.wal[n], o, l)
      && ReaderHorizon(s, me, nodes, reader, rows).Some? && s.wal[n].start < ReaderHorizon(s, me, nodes, reader, rows).value ==>
        l <= SP.LatestLsn(rows, o)
  }

  lemma HorizonCovers(st: Streams, me: nat, s: State, nodes: set<nat>, reader: nat, rows: SP.Rows, n: nat, o: nat, l: Lsn)
    requires WalOK(st, s.wal) && WalSafe(st, s.wal) && reader != me && o in nodes && o != reader && o != me && n < |s.wal| && IsRecordOf(s.wal[n], o, l)
    requires ReaderHorizon(s, me, nodes, reader, rows).Some? && s.wal[n].start < ReaderHorizon(s, me, nodes, reader, rows).value
    ensures l <= SP.LatestLsn(rows, o)
  {
    var view: SP.View := map[reader := rows, me := TableOf(s.wal)];
    assert SP.RowsOf(view, reader) == rows && SP.RowsOf(view, me) == TableOf(s.wal);
    assert SP.HorizonTerm(view, reader, me, o) in SP.HorizonTerms(view, nodes, reader, me);
    TableIs(st, s.wal);
    TranslationCovers(st, s.wal, TableOf(s.wal), o, SP.LatestLsn(rows, o), n, l);
  }

  /** A reader that has the syncpoint of a row, and the node's own at the row's place, has its horizon at that place. */
  lemma HorizonAtRow(st: Streams, me: nat, s: State, r: nat) returns (nodes: set<nat>, reader: nat, rows: SP.Rows)
    requires WalOK(st, s.wal) && r < |s.wal| && s.wal[r].kind.Registration? && s.wal[r].kind.about != me
    ensures var k := s.wal[r].kind;
            && reader != me && reader != k.about && k.about in nodes && SP.LatestLsn(rows, k.about) == k.upTo
            && ReaderHorizon(s, me, nodes, reader, rows) == SP.Some(k.since)
  {
    var k := s.wal[r].kind;
    TableIs(st, s.wal);
    reader, nodes, rows := me + k.about + 1, {k.about, me, me + k.about + 1}, map[(k.about, k.upTo) := 0, (me, k.since) := 0];
    var view: SP.View := map[reader := rows, me := TableOf(s.wal)];
    assert SP.RowsOf(view, reader) == rows && SP.RowsOf(view, me) == TableOf(s.wal);
    assert k.upTo in SP.OriginLsns(rows, k.about) && k.since in SP.OriginLsns(rows, me);
    SP.EmitterExact(TableOf(s.wal), k.about, k.upTo);
    assert SP.HorizonTerm(view, reader, me, k.about) == k.since && SP.HorizonTerm(view, reader, me, me) == k.since;
    assert SP.HorizonTerms(view, nodes, reader, me) == {k.since};
  }

  /** Where a row's contract fails, so does some reader's horizon. */
  lemma BadRowMisleads(st: Streams, me: nat, s: State)
    requires WalOK(st, s.wal) && me !in st && HorizonsHold(me, s)
    ensures RowsHold(s)
  {
    forall r | 0 <= r < |s.wal| && s.wal[r].kind.Registration?
      ensures SecondHalf(s.wal, s.wal[r].kind.about, s.wal[r].kind.upTo, s.wal[r].kind.since)
    {
      var k := s.wal[r].kind;
      assert RecordOK(st, s.wal, r);
      var nodes, reader, rows := HorizonAtRow(st, me, s, r);
      forall n, l: Lsn | 0 <= n < |s.wal| && IsRecordOf(s.wal[n], k.about, l) && l > k.upTo
        ensures s.wal[n].start >= k.since
      {
        assert ReaderHorizon(s, me, nodes, reader, rows) == SP.Some(k.since);
      }
    }
  }

  /** In all runs no reader misses a change before its recovery horizon if and only if the streams read are marked. */
  lemma HorizonsIffMarked(st: Streams, w: Senders, me: nat)
    requires ValidStreams(st, me) && ValidSenders(st, w, me) && Short(st)
    ensures Marked(st, me) <==> forall s :: Reach(st, w, me, s) ==> HorizonsHold(me, s)
  {
    if Marked(st, me) {
      forall s | Reach(st, w, me, s)
        ensures HorizonsHold(me, s)
      {
        ReachSafe(st, w, me, s);
        forall nodes: set<nat>, reader: nat, rows: SP.Rows, n: nat, o: nat, l: Lsn
          | && reader != me && o in nodes && o != reader && o != me && n < |s.wal| && IsRecordOf(s.wal[n], o, l)
            && ReaderHorizon(s, me, nodes, reader, rows).Some? && s.wal[n].start < ReaderHorizon(s, me, nodes, reader, rows).value
          ensures l <= SP.LatestLsn(rows, o)
        {
          HorizonCovers(st, me, s, nodes, reader, rows, n, o, l);
        }
      }
    } else {
      GapExists(st, me);
      var d, k, upTo :| IsGap(st, me, d, k, upTo);
      var late, start, twice := GapFails(st, w, me, d, k, upTo);
      ReachInv(st, w, me, late);
      NotOwn(st, me);
      if HorizonsHold(me, late) {
        BadRowMisleads(st, me, late);
      }
    }
  }
}

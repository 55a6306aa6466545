/**
  How a stream comes to be unmarked, and what follows.  Node 1 logs a syncpoint at 10 and then makes a
  change at 20; node 4 receives both directly; node 2 recovers from node 4, and registers the forwarded
  syncpoint without logging it; node 3 then recovers from node 2 and later gets the syncpoint from
  node 1; node 5, which has that syncpoint and not the change, recovers from node 3 and loses the change.
 */
module ApplyExample {
  import SP = Syncpoints
  import opened RecoveryFilter
  import opened ApplyRun
  import opened ApplyKept
  import opened ApplyMarked
  import opened ApplyExact
  import opened ApplyLoss
  import opened Donor

  const CHANGE := Tx(1, Commit, 20)
  const SENT := [Sync(1, 10), CHANGE]

  /** Node 1's WAL, where they end at 10 and 20, and node 4's, which registers the syncpoint at 2. */
  const NODE_1 := Sender([9, 19], map[])
  const NODE_4 := Sender([1, 3], map[(1, 10) := 2])

  /** What node 2 reads, and what node 3 reads once node 2 has recovered. */
  const FOR_NODE_2: Streams := map[1 := SENT, 4 := SENT]
  const SENDERS_2: Senders := map[1 := NODE_1, 4 := NODE_4]
  const FOR_NODE_3: Streams := map[1 := SENT, 2 := [CHANGE], 4 := SENT]
  const SENDERS_3: Senders := map[1 := NODE_1, 2 := Sender([2], map[(1, 10) := 1]), 4 := NODE_4]

  lemma Sent(st: Streams, l: Lsn)
    requires 1 in st && st[1] == SENT
    ensures Made(st, 1, l) <==> l == 20
    ensures SyncOf(st, 1, l) <==> l == 10
  {
    assert IsTx(st[1][1], 1, 20) && st[1][0] == Sync(1, 10);
  }

  /** A stream that holds what node 1 sent is all right, whoever sends it. */
  lemma SentOK(st: Streams, me: nat, d: nat)
    requires 1 in st && st[1] == SENT && d in st && st[d] == SENT && me != 1
    ensures StreamOK(st, me, d)
  {
    Sent(st, 10);
    Sent(st, 20);
    forall j | 0 <= j < |st[d]|
      ensures CompleteAt(st, me, d, j)
    {
      forall l: Lsn | Made(st, 1, l)
        ensures l == 20
      {
        Sent(st, l);
      }
    }
  }

  lemma ChangeOK(st: Streams, me: nat, d: nat)
    requires 1 in st && st[1] == SENT && d in st && d != 1 && st[d] == [CHANGE] && me != 1
    ensures StreamOK(st, me, d)
  {
    Sent(st, 20);
  }

  lemma Valid()
    ensures ValidStreams(FOR_NODE_2, 2) && ValidStreams(FOR_NODE_3, 3) && Short(FOR_NODE_3)
  {
    SentOK(FOR_NODE_2, 2, 1);
    SentOK(FOR_NODE_2, 2, 4);
    SentOK(FOR_NODE_3, 3, 1);
    SentOK(FOR_NODE_3, 3, 4);
    ChangeOK(FOR_NODE_3, 3, 2);
  }

  lemma PlacesOf1(st: Streams, w: Senders, me: nat)
    requires 1 in st && st[1] == SENT && 1 in w && w[1] == NODE_1
    ensures SenderOK(st, w, me, 1)
  {
  }

  lemma PlacesOf4(st: Streams, w: Senders, me: nat)
    requires 1 in st && st[1] == SENT && 4 in st && st[4] == SENT && 4 in w && w[4] == NODE_4
    ensures SenderOK(st, w, me, 4)
  {
    Sent(st, 10);
    assert RowOK(st, me, 4, w[4].at, 1, 10, 2);
  }

  lemma PlacesOf2()
    ensures SenderOK(FOR_NODE_3, SENDERS_3, 3, 2)
  {
    Sent(FOR_NODE_3, 10);
    assert RowOK(FOR_NODE_3, 3, 2, SENDERS_3[2].at, 1, 10, 1);
  }

  lemma ValidPlaces()
    ensures ValidSenders(FOR_NODE_2, SENDERS_2, 2) && ValidSenders(FOR_NODE_3, SENDERS_3, 3)
  {
    PlacesOf1(FOR_NODE_2, SENDERS_2, 2);
    PlacesOf4(FOR_NODE_2, SENDERS_2, 2);
    PlacesOf1(FOR_NODE_3, SENDERS_3, 3);
    PlacesOf2();
    PlacesOf4(FOR_NODE_3, SENDERS_3, 3);
  }

  /** Node 2 starts to recover from node 4 and registers the forwarded syncpoint. */
  lemma Forwarded() returns (s: State)
    ensures Reach(FOR_NODE_2, SENDERS_2, 2, s) && s.flushed == 0 && s.receivers.Keys == FOR_NODE_2.Keys
    ensures s.wal == [WalRecord(1, Own, Registration(1, 10, 1), 0)]
    ensures s.receivers[4] == Up(Recovery, 1, {}, {}, SpVector(FOR_NODE_2, [], 4, Recovery))
  {
    Valid();
    ValidPlaces();
    var st, w, me := FOR_NODE_2, SENDERS_2, 2;
    var s1 := StartRecovery(st, w, me, 4);
    FreshSkipsNothing(st, me, 4, 0, 0);
    ReachStep(st, w, me, s1, Take(4));
    s := Apply(st, me, s1, Take(4));
  }

  /** Then it applies the change. */
  lemma Changed() returns (s: State)
    ensures Reach(FOR_NODE_2, SENDERS_2, 2, s) && s.flushed == 0
    ensures s.wal == [WalRecord(1, Own, Registration(1, 10, 1), 0), WalRecord(2, Node(1), Commit, 20)]
  {
    Valid();
    var st, w, me := FOR_NODE_2, SENDERS_2, 2;
    var s2 := Forwarded();
    FreshSkipsNothing(st, me, 4, 1, 1);
    ReachStep(st, w, me, s2, Take(4));
    var s3 := Apply(st, me, s2, Take(4));
    assert s3.wal == s2.wal && s3.receivers[4].inflight == {1};
    ReachStep(st, w, me, s3, Finish(4, 1));
    s := Apply(st, me, s3, Finish(4, 1));
  }

  /** Node 2 has recovered from node 4; its WAL shows the change and not the syncpoint. */
  lemma RecoveredNode() returns (s: State)
    ensures Reach(FOR_NODE_2, SENDERS_2, 2, s) && Emitted(s.wal) == [CHANGE]
    ensures HasExactly(s.wal, 1, 10) && Applied(s.wal, 1, 20)
  {
    s := Changed();
    assert s.wal[..0] == [] && s.wal[..2] == s.wal;
    EmitsNext(s.wal, 0);
    EmitsNext(s.wal, 1);
    assert IsRecordOf(s.wal[1], 1, 20) && IsRow(s.wal[0], 1);
  }

  /** A crash may lose what node 2 has logged and not flushed. */
  lemma CrashLoses() returns (s: State, s': State)
    ensures Reach(FOR_NODE_2, SENDERS_2, 2, s) && Reach(FOR_NODE_2, SENDERS_2, 2, s') && Next(FOR_NODE_2, SENDERS_2, 2, s, s')
    ensures Applied(s.wal, 1, 20) && s'.wal == s.wal[..1] && !Applied(s'.wal, 1, 20) && AllDown(FOR_NODE_2, s')
  {
    s := Changed();
    ReachInv(FOR_NODE_2, SENDERS_2, 2, s);
    assert IsRecordOf(s.wal[1], 1, 20);
    ReachStep(FOR_NODE_2, SENDERS_2, 2, s, Crash(1));
    s' := Apply(FOR_NODE_2, 2, s, Crash(1));
    assert Begins(FOR_NODE_2, SENDERS_2, 2, s, Crash(1));
  }

  /** Two changes of node 1, for workers in parallel. */
  const TWO := [Tx(1, Commit, 20), Tx(1, Commit, 30)]
  const PAIR: Streams := map[1 := TWO]
  const SENDER_PAIR: Senders := map[1 := Sender([19, 29], map[])]

  lemma PairValid()
    ensures ValidStreams(PAIR, 2) && ValidSenders(PAIR, SENDER_PAIR, 2)
  {
    assert StreamOK(PAIR, 2, 1);
    assert SenderOK(PAIR, SENDER_PAIR, 2, 1);
  }

  lemma PairStarted() returns (s: State)
    ensures Reach(PAIR, SENDER_PAIR, 2, s) && s.wal == [] && s.receivers.Keys == {1}
    ensures s.receivers[1].Up? && s.receivers[1].mode.Normal? && s.receivers[1].next == 0 && s.receivers[1].inflight == {}
    ensures !Skipped(PAIR, 2, 1, s.receivers[1], 0) && !Skipped(PAIR, 2, 1, s.receivers[1], 1)
  {
    PairValid();
    var st, w, me := PAIR, SENDER_PAIR, 2;
    var s0 := State([], 0, map x | x in st :: Down);
    ReachInit(st, w, me, s0);
    var next;
    s, next := StartNormal(st, w, me, s0, 1);
    assert |w[1].at| > 0 ==> w[1].at[0] >= 0;
  }

  lemma BothTaken() returns (s: State)
    ensures Reach(PAIR, SENDER_PAIR, 2, s) && s.wal == [] && s.receivers.Keys == {1}
    ensures s.receivers[1].Up? && s.receivers[1].mode.Normal? && s.receivers[1].next == 2 && s.receivers[1].inflight == {0, 1}
  {
    var st, w, me := PAIR, SENDER_PAIR, 2;
    var s1 := PairStarted();
    ReachStep(st, w, me, s1, Take(1));
    var s2 := Apply(st, me, s1, Take(1));
    ReachStep(st, w, me, s2, Take(1));
    s := Apply(st, me, s2, Take(1));
  }

  /** The later change may be finished first. */
  lemma OutOfOrder() returns (s: State)
    ensures Reach(PAIR, SENDER_PAIR, 2, s) && s.wal == [WalRecord(1, Node(1), Commit, 30), WalRecord(2, Node(1), Commit, 20)]
  {
    var st, w, me := PAIR, SENDER_PAIR, 2;
    var s0 := BothTaken();
    ReachStep(st, w, me, s0, Finish(1, 1));
    var s1 := Apply(st, me, s0, Finish(1, 1));
    ReachStep(st, w, me, s1, Finish(1, 0));
    s := Apply(st, me, s1, Finish(1, 0));
  }

  /** Node 3 recovers from it, turns to node 1, and registers, translates, starts and applies against the contract, and misleads a reader. */
  lemma ReaderFails() returns (late: State, start: State, twice: State)
    ensures Reach(FOR_NODE_3, SENDERS_3, 3, late) && !RowsHold(late) && !TranslationsHold(late) && !HorizonsHold(3, late)
    ensures Reach(FOR_NODE_3, SENDERS_3, 3, start) && !SkipsAllApplied(FOR_NODE_3, 3, start)
    ensures Reach(FOR_NODE_3, SENDERS_3, 3, twice) && !NoRepeat(twice)
  {
    Valid();
    ValidPlaces();
    Sent(FOR_NODE_3, 10);
    assert IsGap(FOR_NODE_3, 3, 2, 0, 10);
    late, start, twice := GapFails(FOR_NODE_3, SENDERS_3, 3, 2, 0, 10);
    ReachInv(FOR_NODE_3, SENDERS_3, 3, late);
    if TranslationsHold(late) {
      BadRowTranslates(FOR_NODE_3, late);
    }
    if HorizonsHold(3, late) {
      BadRowMisleads(FOR_NODE_3, 3, late);
    }
  }

  // ----- the reader of node 3 -----

  /** Node 3 applies the change. */
  lemma ChangedFirst() returns (s: State)
    ensures Reach(FOR_NODE_3, SENDERS_3, 3, s) && AllDown(FOR_NODE_3, s) && s.wal == [WalRecord(1, Node(1), Commit, 20)]
  {
    Valid();
    ValidPlaces();
    var st, w, me := FOR_NODE_3, SENDERS_3, 3;
    var s1 := StartRecovery(st, w, me, 2);
    FreshSkipsNothing(st, me, 2, 0, 0);
    ReachStep(st, w, me, s1, Take(2));
    var s2 := Apply(st, me, s1, Take(2));
    ReachStep(st, w, me, s2, Finish(2, 0));
    var s3 := Apply(st, me, s2, Finish(2, 0));
    s := StopIt(st, w, me, s3, 2);
  }

  /** Then it gets the syncpoint from node 1: its WAL shows the syncpoint after the change, and places its row there. */
  lemma LateNode() returns (s: State)
    ensures Reach(FOR_NODE_3, SENDERS_3, 3, s)
    ensures s.wal == [WalRecord(1, Node(1), Commit, 20), WalRecord(2, Own, Mark(1, 10), 0), WalRecord(3, Own, Registration(1, 10, 3), 0)]
  {
    Valid();
    ValidPlaces();
    var st, w, me := FOR_NODE_3, SENDERS_3, 3;
    var s1 := ChangedFirst();
    Sent(st, 10);
    s := RegisterLate(st, w, me, s1, 1, 0, 10);
    assert |s.wal| == 3 && s.wal[0] == s1.wal[0];
  }

  lemma LateEmits(s: State)
    requires s.wal == [WalRecord(1, Node(1), Commit, 20), WalRecord(2, Own, Mark(1, 10), 0), WalRecord(3, Own, Registration(1, 10, 3), 0)]
    ensures Emitted(s.wal) == [CHANGE, Sync(1, 10)] && TableOf(s.wal) == map[(1, 10) := 3]
  {
    assert s.wal[..0] == [] && s.wal[..3] == s.wal;
    EmitsNext(s.wal, 0);
    EmitsNext(s.wal, 1);
    EmitsNext(s.wal, 2);
    var one, two := s.wal[..1], s.wal[..2];
    assert two[..1] == one && one[..0] == [] && TableOf(one) == map[] && TableOf(two) == map[];
  }

  /** Later node 1 logs another syncpoint, and node 3 logs one of its own and then gets that of node 1. */
  const MORE := [Sync(1, 10), CHANGE, Sync(1, 30)]
  const LATE := [CHANGE, Sync(1, 10), Sync(3, 5), Sync(1, 30)]
  const FOR_NODE_5: Streams := map[1 := MORE, 3 := LATE]
  const SENDERS_5: Senders := map[1 := Sender([9, 19, 29], map[]), 3 := Sender([1, 2, 4, 6], map[(1, 10) := 3, (1, 30) := 7])]

  lemma SentMore(l: Lsn)
    ensures Made(FOR_NODE_5, 1, l) <==> l == 20
    ensures SyncOf(FOR_NODE_5, 1, l) <==> l == 10 || l == 30
    ensures SyncOf(FOR_NODE_5, 3, l) <==> l == 5
  {
    assert IsTx(MORE[1], 1, 20) && MORE[0] == Sync(1, 10) && MORE[2] == Sync(1, 30) && LATE[2] == Sync(3, 5);
  }

  lemma StreamOf1()
    ensures StreamOK(FOR_NODE_5, 5, 1)
  {
    SentMore(20);
    forall j | 0 <= j < |MORE|
      ensures CompleteAt(FOR_NODE_5, 5, 1, j)
    {
      forall l: Lsn | Made(FOR_NODE_5, 1, l)
        ensures l == 20
      {
        SentMore(l);
      }
      assert IsTx(MORE[1], 1, 20);
    }
  }

  lemma StreamOf3()
    ensures StreamOK(FOR_NODE_5, 5, 3)
  {
    SentMore(10);
    SentMore(20);
    SentMore(30);
    forall j | 0 <= j < |LATE|
      ensures CompleteAt(FOR_NODE_5, 5, 3, j)
    {
      forall l: Lsn | Made(FOR_NODE_5, 1, l)
        ensures l == 20
      {
        SentMore(l);
      }
      assert IsTx(LATE[0], 1, 20);
      forall l: Lsn
        ensures !Made(FOR_NODE_5, 3, l)
      {
      }
    }
  }

  lemma PlacesFor5()
    ensures ValidSenders(FOR_NODE_5, SENDERS_5, 5)
  {
    SentMore(10);
    SentMore(30);
    assert RowOK(FOR_NODE_5, 5, 3, SENDERS_5[3].at, 1, 10, 3) && RowOK(FOR_NODE_5, 5, 3, SENDERS_5[3].at, 1, 30, 7);
    assert SenderOK(FOR_NODE_5, SENDERS_5, 5, 1) && SenderOK(FOR_NODE_5, SENDERS_5, 5, 3);
  }

  /** Node 5 registers (1, 10) and (3, 5), starts to recover from node 3 at 3, after the change, and registers (1, 30) without it. */
  lemma ChangeLost() returns (s: State)
    ensures Overtaken(FOR_NODE_5, SENDERS_5, 5, 3, 0)
    ensures Reach(FOR_NODE_5, SENDERS_5, 5, s) && HasRow(s.wal, 1, 20) && !Applied(s.wal, 1, 20) && !FirstHalves(FOR_NODE_5, s)
  {
    StreamOf1();
    StreamOf3();
    PlacesFor5();
    SentMore(5);
    assert RowAfter(SENDERS_5, 3, 1, 10, 1) && SyncOf(FOR_NODE_5, 3, 5) && CoveredAt(LATE, 0, 3);
    s := OvertakenIsLost(FOR_NODE_5, SENDERS_5, 5, 3, 0);
  }
}

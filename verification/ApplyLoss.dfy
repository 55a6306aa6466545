/**
  A bypassed change is passed without being applied in some run, and one that is overtaken is lost in
  some run: a syncpoint beyond it is registered without it.  So the conditions of ApplyKept are exact,
  and together with marked streams they are exactly what the contract of the syncpoint table needs.
 */
module ApplyLoss {
  import SP = Syncpoints
  import opened RecoveryFilter
  import opened ApplyRun
  import opened ApplyKept
  import opened ApplyMarked
  import opened ApplyExact

  // ----- a node with chosen syncpoints -----

  /** Syncpoints that the node may have, with which it starts beyond p in d's WAL. */
  ghost predicate Vector(st: Streams, w: Senders, d: nat, p: Lsn, v: map<nat, Lsn>) {
    && d in st && d in w && v.Keys == st.Keys
    && (forall x :: x in st ==> SyncOf(st, x, v[x]) && if x == d then v[x] > p else RowAfter(w, d, x, v[x], p))
  }

  ghost function SyncAfter(st: Streams, w: Senders, me: nat, d: nat, k: nat, x: nat): (l: Lsn)
    requires ValidStreams(st, me) && ValidSenders(st, w, me) && Bypassed(st, w, me, d, k) && x in st
    ensures SyncOf(st, x, l) && if x == d then l > w[d].at[k] else RowAfter(w, d, x, l, w[d].at[k])
    ensures x == st[d][k].origin ==> l < st[d][k].lsn
  {
    assert SenderOK(st, w, me, d) && StreamOK(st, me, x);
    if x == d then
      var l: Lsn :| SyncOf(st, d, l) && l > w[d].at[k];
      l
    else if x == st[d][k].origin then
      var l: Lsn :| RowAfter(w, d, x, l, w[d].at[k]) && l < st[d][k].lsn;
      assert RowOK(st, me, d, w[d].at, (x, l).0, (x, l).1, w[d].rows[(x, l)]);
      l
    else
      assert SomeRowAfter(w, d, x, w[d].at[k]);
      var l: Lsn :| RowAfter(w, d, x, l, w[d].at[k]);
      assert RowOK(st, me, d, w[d].at, (x, l).0, (x, l).1, w[d].rows[(x, l)]);
      l
  }

  /** The node has exactly the syncpoints of v of the origins in done, and nothing beyond them. */
  ghost predicate Has(st: Streams, s: State, v: map<nat, Lsn>, done: set<nat>)
    requires v.Keys == st.Keys
  {
    && AllDown(st, s) && |s.wal| <= |done| * 0x0800_0000_0000_0000
    && (forall x :: x in st ==> LatestSp(s.wal, x).originLsn == if x in done then v[x] else 0)
    && (forall r :: 0 <= r < |s.wal| && IsTransaction(s.wal[r]) && s.wal[r].origin.Node? ==>
          s.wal[r].origin.id in done && s.wal[r].origin.id in v && s.wal[r].originLsn <= v[s.wal[r].origin.id])
  }

  lemma {:induction false} FewNodes(nodes: set<nat>, n: nat)
    requires forall x :: x in nodes ==> 1 <= x <= n
    ensures |nodes| <= n
  {
    if n > 0 {
      FewNodes(nodes - {n}, n - 1);
    } else {
      assert nodes == {};
    }
  }

  /** What was logged while x's own items up to its syncpoint upTo were passed. */
  ghost predicate GrownBy(x: nat, wal: seq<WalRecord>, wal': seq<WalRecord>, upTo: Lsn) {
    && wal <= wal'
    && (forall r :: |wal| <= r < |wal'| && wal'[r].kind.Registration? ==> wal'[r].kind.about == x && wal'[r].kind.upTo <= upTo)
    && (forall r :: |wal| <= r < |wal'| && IsTransaction(wal'[r]) ==> wal'[r].origin == Node(x) && wal'[r].originLsn <= upTo)
  }

  lemma Grown(st: Streams, me: nat, x: nat, rc: Receiver, p: nat, wal: seq<WalRecord>, wal': seq<WalRecord>)
    requires ValidStreams(st, me) && x in st && p < |st[x]| && st[x][p].origin == x && rc.Up? && rc.mode.Normal?
    requires Passed(st, me, x, rc, 0, p + 1, wal, wal')
    ensures GrownBy(x, wal, wal', st[x][p].lsn)
  {
    assert StreamOK(st, me, x);
    forall i | 0 <= i < p + 1 && Wanted(st, me, x, Normal, i)
      ensures st[x][i].origin == x && st[x][i].lsn <= st[x][p].lsn
    {
      assert i < p ==> PairOK(x, st[x][i], st[x][p]);
    }
    forall r | |wal| <= r < |wal'| && wal'[r].kind.Registration?
      ensures wal'[r].kind.about == x && wal'[r].kind.upTo <= st[x][p].lsn
    {
      assert RowOf(st, me, x, rc.mode, 0, p + 1, wal'[r].kind);
    }
    forall r | |wal| <= r < |wal'| && IsTransaction(wal'[r])
      ensures wal'[r].origin == Node(x) && wal'[r].originLsn <= st[x][p].lsn
    {
      assert TxOf(st, me, x, rc.mode, 0, p + 1, wal'[r]);
    }
  }

  lemma LatestGrown(x: nat, wal: seq<WalRecord>, wal': seq<WalRecord>, upTo: Lsn, y: nat)
    requires GrownBy(x, wal, wal', upTo) && HasRow(wal', x, upTo) && LatestSp(wal, x).originLsn <= upTo
    ensures LatestSp(wal', y).originLsn == if y == x then upTo else LatestSp(wal, y).originLsn
  {
    LatestSpIs(wal, y);
    LatestSpIs(wal', y);
    forall r | 0 <= r < |wal'| && IsRow(wal'[r], y)
      ensures wal'[r].kind.upTo <= if y == x then upTo else LatestSp(wal, y).originLsn
    {
      if r < |wal| {
        assert wal'[r] == wal[r];
      }
    }
    if y == x {
      var r :| 0 <= r < |wal'| && IsRow(wal'[r], x) && wal'[r].kind.upTo >= upTo;
    } else if LatestSp(wal, y).originLsn > 0 {
      var r :| 0 <= r < |wal| && IsRow(wal[r], y) && LatestSp(wal, y) == Syncpoint(wal[r].kind.upTo, wal[r].kind.since);
      assert IsRow(wal'[r], y);
    }
  }

  /** A receiver of x that starts without a syncpoint passes x's items up to its syncpoint at p. */
  lemma WalkOwn(st: Streams, w: Senders, me: nat, s: State, x: nat, p: nat) returns (s': State)
    requires Reach(st, w, me, s) && AllDown(st, s) && x in st && p < |st[x]| && st[x][p].Sync? && st[x][p].origin == x
    requires LatestSp(s.wal, x).originLsn == 0 && |s.wal| + 2 * |st[x]| + 6 < MAX_LSN
    ensures Reach(st, w, me, s') && AllDown(st, s') && |s'.wal| <= |s.wal| + 2 * |st[x]|
    ensures GrownBy(x, s.wal, s'.wal, st[x][p].lsn) && HasRow(s'.wal, x, st[x][p].lsn)
  {
    ReachValid(st, w, me, s);
    var s1, next := StartNormal(st, w, me, s, x);
    assert |w[x].at| > 0 ==> w[x].at[0] >= 0;
    var s2 := Walk(st, w, me, s1, x, p + 1);
    Grown(st, me, x, s1.receivers[x], p, s.wal, s2.wal);
    ReachInv(st, w, me, s2);
    assert StreamOK(st, me, x);
    assert ReceiverOK(st, me, s2.wal, x, s2.receivers[x]) && SyncSeen(st, me, s2.wal, x, s2.receivers[x], p);
    s' := StopIt(st, w, me, s2, x);
  }

  /** The normal receiver of x brings the node to the syncpoint v[x]. */
  lemma RegisterOne(st: Streams, w: Senders, me: nat, s: State, v: map<nat, Lsn>, done: set<nat>, x: nat) returns (s': State)
    requires Reach(st, w, me, s) && Short(st) && v.Keys == st.Keys && Has(st, s, v, done) && x in st && x !in done && SyncOf(st, x, v[x]) && |done| < 16
    ensures Reach(st, w, me, s') && Has(st, s', v, done + {x})
  {
    var p :| 0 <= p < |st[x]| && st[x][p] == Sync(x, v[x]);
    assert |st[x]| < 0x03FF_FFFF_FFFF_FFFF;
    s' := WalkOwn(st, w, me, s, x, p);
    forall y | y in st
      ensures LatestSp(s'.wal, y).originLsn == if y in done + {x} then v[y] else 0
    {
      LatestGrown(x, s.wal, s'.wal, v[x], y);
    }
    forall r | 0 <= r < |s'.wal| && IsTransaction(s'.wal[r]) && s'.wal[r].origin.Node?
      ensures s'.wal[r].origin.id in done + {x} && s'.wal[r].origin.id in v && s'.wal[r].originLsn <= v[s'.wal[r].origin.id]
    {
      assert r < |s.wal| ==> s'.wal[r] == s.wal[r];
    }
    assert |done + {x}| == |done| + 1;
  }

  lemma FewSenders(st: Streams, me: nat, some: set<nat>)
    requires ValidStreams(st, me) && some <= st.Keys
    ensures |some| <= 16
  {
    forall y | y in some
      ensures 1 <= y <= 16
    {
      assert StreamOK(st, me, y);
    }
    FewNodes(some, 16);
  }

  /** A run brings the node to the syncpoints of v of the origins in done. */
  ghost predicate CanHave(st: Streams, w: Senders, me: nat, v: map<nat, Lsn>, done: set<nat>) {
    v.Keys == st.Keys && exists s :: Reach(st, w, me, s) && Has(st, s, v, done)
  }

  lemma HaveNone(st: Streams, w: Senders, me: nat, v: map<nat, Lsn>)
    requires ValidStreams(st, me) && ValidSenders(st, w, me) && v.Keys == st.Keys
    ensures CanHave(st, w, me, v, {})
  {
    var s := State([], 0, map x | x in st :: Down);
    ReachInit(st, w, me, s);
    assert Has(st, s, v, {});
  }

  lemma HaveMore(st: Streams, w: Senders, me: nat, v: map<nat, Lsn>, done: set<nat>, x: nat)
    requires CanHave(st, w, me, v, done - {x}) && Short(st) && x in st && x in done && x in v && SyncOf(st, x, v[x]) && |done| <= 16
    ensures CanHave(st, w, me, v, done)
  {
    var rest := done - {x};
    var s :| Reach(st, w, me, s) && Has(st, s, v, rest);
    assert rest + {x} == done;
    var s' := RegisterOne(st, w, me, s, v, rest, x);
  }

  /** v has a syncpoint of every sender. */
  ghost predicate AllSyncs(st: Streams, v: map<nat, Lsn>) {
    v.Keys == st.Keys && forall x :: x in v ==> SyncOf(st, x, v[x])
  }

  lemma {:induction false} HaveAll(st: Streams, w: Senders, me: nat, v: map<nat, Lsn>, done: set<nat>)
    requires ValidStreams(st, me) && ValidSenders(st, w, me) && Short(st) && AllSyncs(st, v) && done <= st.Keys
    ensures CanHave(st, w, me, v, done)
    decreases |done|
  {
    if done == {} {
      HaveNone(st, w, me, v);
    } else {
      var x :| x in done;
      FewSenders(st, me, done);
      HaveAll(st, w, me, v, done - {x});
      HaveMore(st, w, me, v, done, x);
    }
  }

  // ----- starting beyond the change -----

  lemma ScanStartIs(v: seq<Syncpoint>, i: nat) returns (from: Lsn)
    requires i < |v| && v[i].localLsn != 0
    ensures IsScanStart(v, from)
  {
    var s := set j | 0 <= j < |v| && v[j].localLsn != 0 :: v[j].localLsn;
    assert v[i].localLsn in s;
    from := SP.MinOf(s);
    forall j | 0 <= j < |v| && v[j].localLsn != 0
      ensures from <= v[j].localLsn
    {
      assert v[j].localLsn in s;
    }
  }

  /** With the syncpoints of v the horizon in d's WAL is beyond p. */
  lemma HorizonBeyond(st: Streams, w: Senders, me: nat, wal: seq<WalRecord>, d: nat, p: Lsn, v: map<nat, Lsn>)
    requires ValidStreams(st, me) && Vector(st, w, d, p, v) && forall x :: x in st ==> LatestSp(wal, x).originLsn == v[x]
    ensures var h := HorizonFrom(st, me, wal, d, w[d].rows); h.Some? && p < h.value
  {
    var view: SP.View := map[me := TableOf(wal), d := w[d].rows];
    assert StreamOK(st, me, d);
    assert SP.RowsOf(view, me) == TableOf(wal) && SP.RowsOf(view, d) == w[d].rows;
    forall x | x in st
      ensures SP.HorizonTerm(view, me, d, x) > p
    {
      TableLatest(wal, x);
      if x != d {
        SP.EmitterExact(w[d].rows, x, v[x]);
      }
    }
    assert SP.HorizonTerm(view, me, d, d) in SP.HorizonTerms(view, st.Keys + {me}, me, d);
  }

  /** What a receiver in recovery loads, for some start of the scan. */
  lemma RecoveryLoads(st: Streams, me: nat, wal: seq<WalRecord>, d: nat) returns (filter: set<(nat, Lsn)>, from: Lsn)
    requires ValidStreams(st, me) && WalOK(st, wal) && d in st
    ensures var v := SpVector(st, wal, d, Recovery); IsScanStart(v, from) && IsFilter(filter, wal, from, 0, v)
  {
    var v := SpVector(st, wal, d, Recovery);
    assert StreamOK(st, me, d);
    LatestLocal(st, wal, d);
    from := ScanStartIs(v, d - 1);
    FilterOfIs(wal, from, 0, v);
    filter := FilterOf(wal, from, 0, v);
  }

  /** With everything down, a receiver of d may start in recovery at the horizon. */
  lemma StartAtHorizon(st: Streams, w: Senders, me: nat, s: State, d: nat, h: Lsn) returns (s': State)
    requires Reach(st, w, me, s) && AllDown(st, s) && d in st && d in w && StartsFrom(st, w, me, s.wal, d, Recovery, h)
    ensures Reach(st, w, me, s') && s'.wal == s.wal && s'.receivers.Keys == st.Keys && s'.receivers[d].Up?
    ensures var rc := s'.receivers[d]; rc.mode == Recovery && rc.inflight == {} && Boundary(w[d].at, rc.next, h)
  {
    ReachInv(st, w, me, s);
    ReachValid(st, w, me, s);
    assert SenderOK(st, w, me, d);
    var next := BoundaryAt(w[d].at, h);
    var filter, from := RecoveryLoads(st, me, s.wal, d);
    var step := Start(d, Recovery, next, filter, from);
    ReachStep(st, w, me, s, step);
    s' := Apply(st, me, s, step);
  }

  /** The node is beyond a change in recovery, and has not applied it. */
  ghost predicate IsPast(st: Streams, me: nat, s: State, d: nat, k: nat) {
    && d in st && k < |st[d]| && st[d][k].Tx? && d in s.receivers && s.receivers[d].Up? && k < s.receivers[d].next
    && Wanted(st, me, d, s.receivers[d].mode, k) && k !in s.receivers[d].inflight && !Applied(s.wal, st[d][k].origin, st[d][k].lsn)
  }

  /** The syncpoints of v do not reach the change, and nothing beyond them is applied. */
  lemma NotApplied(st: Streams, s: State, v: map<nat, Lsn>, o: nat, l: Lsn)
    requires v.Keys == st.Keys && Has(st, s, v, st.Keys) && o in st && v[o] < l
    ensures !Applied(s.wal, o, l)
  {
    forall r | 0 <= r < |s.wal|
      ensures !IsRecordOf(s.wal[r], o, l)
    {
    }
  }

  /** A node with syncpoints that a sender places after a change, while they do not reach it. */
  lemma Bypassing(st: Streams, w: Senders, me: nat, d: nat, k: nat) returns (s: State, v: map<nat, Lsn>)
    requires ValidStreams(st, me) && ValidSenders(st, w, me) && Short(st) && Bypassed(st, w, me, d, k)
    ensures Reach(st, w, me, s) && Vector(st, w, d, w[d].at[k], v) && Has(st, s, v, st.Keys)
    ensures st[d][k].origin in st && v[st[d][k].origin] < st[d][k].lsn
  {
    v := map x | x in st :: SyncAfter(st, w, me, d, k, x);
    HaveAll(st, w, me, v, st.Keys);
    s :| Reach(st, w, me, s) && Has(st, s, v, st.Keys);
    WantedItem(st, me, d, Recovery, k);
  }

  /** The horizon is not after the row about o. */
  lemma HorizonReaches(st: Streams, w: Senders, me: nat, wal: seq<WalRecord>, d: nat, o: nat)
    requires ValidStreams(st, me) && d in st && d in w && o in st && o != d && (o, LatestSp(wal, o).originLsn) in w[d].rows
    ensures var h := HorizonFrom(st, me, wal, d, w[d].rows); h.Some? && h.value <= w[d].rows[(o, LatestSp(wal, o).originLsn)]
  {
    assert StreamOK(st, me, o) && StreamOK(st, me, d);
    HorizonAtMost(st, me, wal, d, w[d].rows, o);
    SP.EmitterExact(w[d].rows, o, LatestSp(wal, o).originLsn);
  }

  /** A bypassed change is passed without being applied. */
  lemma BypassedIsPassed(st: Streams, w: Senders, me: nat, d: nat, k: nat) returns (s: State, h: Lsn, upTo: Lsn)
    requires ValidStreams(st, me) && ValidSenders(st, w, me) && Short(st) && Bypassed(st, w, me, d, k)
    ensures Reach(st, w, me, s) && IsPast(st, me, s, d, k) && |s.wal| <= 0x8000_0000_0000_0000
    ensures s.receivers[d].mode == Recovery && s.receivers[d].inflight == {} && Boundary(w[d].at, s.receivers[d].next, h)
    ensures RowAfter(w, d, st[d][k].origin, upTo, w[d].at[k]) && upTo < st[d][k].lsn && h <= w[d].rows[(st[d][k].origin, upTo)]
  {
    var s0, v := Bypassing(st, w, me, d, k);
    h, upTo := HorizonPast(st, w, me, s0, d, k, v);
    s := StartAtHorizon(st, w, me, s0, d, h);
    NotApplied(st, s0, v, st[d][k].origin, st[d][k].lsn);
    FewSenders(st, me, st.Keys);
  }

  lemma HorizonPast(st: Streams, w: Senders, me: nat, s: State, d: nat, k: nat, v: map<nat, Lsn>) returns (h: Lsn, upTo: Lsn)
    requires ValidStreams(st, me) && Bypassed(st, w, me, d, k) && Vector(st, w, d, w[d].at[k], v) && Has(st, s, v, st.Keys)
    requires st[d][k].origin in st && v[st[d][k].origin] < st[d][k].lsn
    ensures StartsFrom(st, w, me, s.wal, d, Recovery, h) && w[d].at[k] < h
    ensures RowAfter(w, d, st[d][k].origin, upTo, w[d].at[k]) && upTo < st[d][k].lsn && h <= w[d].rows[(st[d][k].origin, upTo)]
  {
    upTo := v[st[d][k].origin];
    HorizonBeyond(st, w, me, s.wal, d, w[d].at[k], v);
    HorizonReaches(st, w, me, s.wal, d, st[d][k].origin);
    h := HorizonFrom(st, me, s.wal, d, w[d].rows).value;
    assert CopyOf(w[d].rows, w[d].rows);
  }

  // ----- losing it -----

  /** A row has the first half of its contract. */
  ghost predicate FirstHalves(st: Streams, s: State) {
    forall r {:trigger s.wal[r]} :: 0 <= r < |s.wal| && s.wal[r].kind.Registration? ==>
      FirstHalf(st, s.wal, s.wal[r].kind.about, s.wal[r].kind.upTo, s.wal[r].kind.since)
  }

  /** The change does not come again later in the stream. */
  lemma NotAgain(st: Streams, me: nat, s: State, s': State, d: nat, k: nat, n: nat)
    requires ValidStreams(st, me) && IsPast(st, me, s, d, k) && s.receivers[d].next <= n <= |st[d]|
    requires Passed(st, me, d, s.receivers[d], s.receivers[d].next, n, s.wal, s'.wal)
    ensures !Applied(s'.wal, st[d][k].origin, st[d][k].lsn)
  {
    var o, l := st[d][k].origin, st[d][k].lsn;
    forall r | 0 <= r < |s'.wal|
      ensures !IsRecordOf(s'.wal[r], o, l)
    {
      if r < |s.wal| {
        assert s'.wal[r] == s.wal[r];
        assert !IsRecordOf(s.wal[r], o, l);
      } else if IsTransaction(s'.wal[r]) {
        assert TxOf(st, me, d, s.receivers[d].mode, s.receivers[d].next, n, s'.wal[r]);
        var i :| s.receivers[d].next <= i < n && Wanted(st, me, d, s.receivers[d].mode, i) && st[d][i].Tx? && IsRecordOf(s'.wal[r], st[d][i].origin, st[d][i].lsn);
        assert StreamOK(st, me, d) && PairOK(d, st[d][k], st[d][i]);
      }
    }
  }

  /** An overtaken change is lost: a syncpoint beyond it is registered without it. */
  lemma OvertakenIsLost(st: Streams, w: Senders, me: nat, d: nat, k: nat) returns (s: State)
    requires ValidStreams(st, me) && ValidSenders(st, w, me) && Short(st) && Overtaken(st, w, me, d, k)
    ensures Reach(st, w, me, s) && !FirstHalves(st, s) && HasRow(s.wal, st[d][k].origin, st[d][k].lsn) && !Applied(s.wal, st[d][k].origin, st[d][k].lsn)
  {
    var s0, h, upTo := BypassedIsPassed(st, w, me, d, k);
    var o, l, rc := st[d][k].origin, st[d][k].lsn, s0.receivers[d];
    var j: nat :| CoveredAt(st[d], k, j);
    assert SenderOK(st, w, me, d) && RowOK(st, me, d, w[d].at, (o, upTo).0, (o, upTo).1, w[d].rows[(o, upTo)]);
    assert rc.next <= j;
    assert |st[d]| < 0x03FF_FFFF_FFFF_FFFF;
    s := Walk(st, w, me, s0, d, j + 1);
    NotAgain(st, me, s0, s, d, k, j + 1);
    ReachInv(st, w, me, s);
    assert ReceiverOK(st, me, s.wal, d, s.receivers[d]) && SyncSeen(st, me, s.wal, d, s.receivers[d], j);
    var r :| 0 <= r < |s.wal| && IsRow(s.wal[r], o) && s.wal[r].kind.upTo >= st[d][j].lsn;
    WantedItem(st, me, d, Recovery, k);
    assert Made(st, o, l) && !AppliedBefore(s.wal, o, l, s.wal[r].kind.since);
  }

  // ----- the conditions are exact -----

  ghost predicate NonePast(st: Streams, me: nat, s: State) {
    forall d, k {:trigger IsPast(st, me, s, d, k)} :: !IsPast(st, me, s, d, k)
  }

  /** In all runs everything passed is applied or being applied if and only if no change is bypassed. */
  lemma NothingPassedIff(st: Streams, w: Senders, me: nat)
    requires ValidStreams(st, me) && ValidSenders(st, w, me) && Short(st)
    ensures Unbypassed(st, w, me) <==> forall s :: Reach(st, w, me, s) ==> NonePast(st, me, s)
  {
    if Unbypassed(st, w, me) {
      UnbypassedNotOvertaken(st, w, me);
      forall s | Reach(st, w, me, s)
        ensures NonePast(st, me, s)
      {
        var run :| Run(st, w, me, run) && run[|run| - 1] == s;
        forall d: nat, k: nat
          ensures !IsPast(st, me, s, d, k)
        {
          if IsPast(st, me, s, d, k) {
            NothingLost(st, w, me, run, |run| - 1, d, k);
            assert false;
          }
        }
      }
    } else {
      var d, k :| Bypassed(st, w, me, d, k);
      var s, h, upTo := BypassedIsPassed(st, w, me, d, k);
    }
  }

  lemma ReachKept(st: Streams, w: Senders, me: nat, s: State)
    requires Reach(st, w, me, s) && NoneOvertaken(st, w, me)
    ensures FirstHalves(st, s)
  {
    var run :| Run(st, w, me, run) && run[|run| - 1] == s;
    forall r | 0 <= r < |s.wal| && s.wal[r].kind.Registration?
      ensures FirstHalf(st, s.wal, s.wal[r].kind.about, s.wal[r].kind.upTo, s.wal[r].kind.since)
    {
      RowsKeepFirstHalf(st, w, me, run, |run| - 1, r);
    }
  }

  /** In all runs every registered syncpoint has everything up to it before it if and only if no change is overtaken. */
  lemma FirstHalvesIff(st: Streams, w: Senders, me: nat)
    requires ValidStreams(st, me) && ValidSenders(st, w, me) && Short(st)
    ensures NoneOvertaken(st, w, me) <==> forall s :: Reach(st, w, me, s) ==> FirstHalves(st, s)
  {
    if NoneOvertaken(st, w, me) {
      forall s | Reach(st, w, me, s)
        ensures FirstHalves(st, s)
      {
        ReachKept(st, w, me, s);
      }
    } else {
      var d, k :| Overtaken(st, w, me, d, k);
      var s := OvertakenIsLost(st, w, me, d, k);
    }
  }

  /** In all runs every registered syncpoint keeps both halves of its row's contract if and only if streams are marked and no change is overtaken. */
  lemma ContractIff(st: Streams, w: Senders, me: nat)
    requires ValidStreams(st, me) && ValidSenders(st, w, me) && Short(st)
    ensures Marked(st, me) && NoneOvertaken(st, w, me) <==> forall s :: Reach(st, w, me, s) ==> FirstHalves(st, s) && RowsHold(s)
  {
    FirstHalvesIff(st, w, me);
    RowsHoldIffMarked(st, w, me);
  }

  /** In all runs every change up to a registered syncpoint is applied, and none twice, if and only if streams are marked and no change is overtaken. */
  lemma ExactlyOnceIff(st: Streams, w: Senders, me: nat)
    requires ValidStreams(st, me) && ValidSenders(st, w, me) && Short(st)
    ensures Marked(st, me) && NoneOvertaken(st, w, me) <==> forall s :: Reach(st, w, me, s) ==> FirstHalves(st, s) && NoRepeat(s)
  {
    FirstHalvesIff(st, w, me);
    NoRepeatIffMarked(st, w, me);
  }

  // ----- marked streams -----

  /** Where a sender has logged a syncpoint, its row lies before the changes of that origin beyond it that follow. */
  ghost predicate Prompt(st: Streams, w: Senders) {
    forall d, j, k {:trigger st[d][j], w[d].at[k]} ::
      && d in st && d in w && 0 <= j < k < |st[d]| && k < |w[d].at| && st[d][j].Sync? && st[d][k].Tx? && st[d][j].origin == st[d][k].origin
      && st[d][j].lsn < st[d][k].lsn && (st[d][j].origin, st[d][j].lsn) in w[d].rows ==>
        w[d].rows[(st[d][j].origin, st[d][j].lsn)] <= w[d].at[k]
  }

  /** Marked streams whose rows follow at once bypass nothing. */
  lemma MarkedBypassNothing(st: Streams, w: Senders, me: nat)
    requires ValidStreams(st, me) && ValidSenders(st, w, me) && Marked(st, me) && Prompt(st, w)
    ensures Unbypassed(st, w, me)
  {
    forall d: nat, k: nat
      ensures !Bypassed(st, w, me, d, k)
    {
      if Bypassed(st, w, me, d, k) {
        var o := st[d][k].origin;
        var upTo: Lsn :| RowAfter(w, d, o, upTo, w[d].at[k]) && upTo < st[d][k].lsn;
        RowIsPlaced(st, w, me, d, k, upTo);
        assert false;
      }
    }
  }

  lemma RowIsPlaced(st: Streams, w: Senders, me: nat, d: nat, k: nat, upTo: Lsn)
    requires ValidStreams(st, me) && ValidSenders(st, w, me) && Marked(st, me) && Prompt(st, w) && d in st && d in w
    requires k < |st[d]| && k < |w[d].at| && st[d][k].Tx? && st[d][k].origin != me && (st[d][k].origin, upTo) in w[d].rows && upTo < st[d][k].lsn
    ensures w[d].rows[(st[d][k].origin, upTo)] <= w[d].at[k]
  {
    var o := st[d][k].origin;
    var row := (o, upTo);
    assert SenderOK(st, w, me, d) && RowOK(st, me, d, w[d].at, row.0, row.1, w[d].rows[row]);
    assert MarkedAt(st, me, d, k) && MarkBefore(st[d], k, o, upTo);
    var j :| 0 <= j < k && st[d][j].Sync? && st[d][j].origin == o && st[d][j].lsn >= upTo;
    if st[d][j].lsn > upTo {
      assert w[d].rows[row] <= w[d].at[j] < w[d].at[k];
    }
  }
}

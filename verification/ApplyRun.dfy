/**
  One node applying the streams of the others: receivers in normal mode, each pulling its sender's
  own changes for parallel workers, or one receiver in recovery mode, pulling everything that a
  donor has from the recovery horizon on; syncpoints received directly or forwarded by the donor;
  receivers that stop, and crashes that lose unflushed WAL.  What holds in every run: a node's
  syncpoints of an origin only advance, and a receiver passes or skips only registered syncpoints.
 */
module ApplyRun {
  import SP = Syncpoints
  import opened RecoveryFilter

  /** What a receiver gets: a change or a syncpoint of origin, with its end position there. */
  datatype Item = Tx(origin: nat, kind: Kind, lsn: Lsn) | Sync(origin: nat, lsn: Lsn)

  /** Sender to what its WAL holds, in order: its own changes and syncpoints, and those it applied of others. */
  type Streams = map<nat, seq<Item>>

  /** Where the items of a sender's stream lie in its WAL, and the syncpoints it has registered: (origin, position there) to place. */
  datatype Sender = Sender(at: seq<Lsn>, rows: SP.Rows)

  type Senders = map<nat, Sender>

  datatype Mode = Normal | Recovery

  /** A receiver process: its place in the stream, the work not finished, and what it loaded at start. */
  datatype Receiver = Down | Up(mode: Mode, next: nat, inflight: set<nat>, filter: set<(nat, Lsn)>, spvector: seq<Syncpoint>)

  datatype State = State(wal: seq<WalRecord>, flushed: nat, receivers: map<nat, Receiver>)

  datatype Step =
    | Start(d: nat, mode: Mode, next: nat, filter: set<(nat, Lsn)>, from: Lsn)
    | Take(d: nat)
    | Finish(d: nat, i: nat)
    | Log
    | Flush(upTo: nat)
    | Stop(d: nat)
    | Crash(upTo: nat)

  // ----- streams -----

  predicate IsTx(item: Item, o: nat, l: Lsn) {
    item.Tx? && item.origin == o && item.lsn == l
  }

  ghost predicate TxBefore(s: seq<Item>, n: nat, o: nat, l: Lsn) {
    exists i :: 0 <= i < n <= |s| && IsTx(s[i], o, l)
  }

  /** o made a change that ends at l. */
  ghost predicate Made(st: Streams, o: nat, l: Lsn) {
    o in st && TxBefore(st[o], |st[o]|, o, l)
  }

  /** o logged a syncpoint that ends at l. */
  ghost predicate SyncOf(st: Streams, o: nat, l: Lsn) {
    o in st && exists i :: 0 <= i < |st[o]| && st[o][i] == Sync(o, l)
  }

  /** Items are of the sender, of the reader, or were made by their origin. */
  ghost predicate ItemOK(st: Streams, me: nat, d: nat, i: nat)
    requires d in st && i < |st[d]|
  {
    var item := st[d][i];
    && item.lsn > 0 && (item.Tx? ==> IsTransaction(WalRecord(0, Own, item.kind, 0)))
    && (item.origin == d || item.origin == me || if item.Tx? then Made(st, item.origin, item.lsn) else SyncOf(st, item.origin, item.lsn))
  }

  /** A syncpoint lies in the stream after everything its origin made before it: the sender waited for that. */
  ghost predicate CompleteAt(st: Streams, me: nat, d: nat, j: nat)
    requires d in st && j < |st[d]|
  {
    st[d][j].Sync? && st[d][j].origin != me ==>
      forall l: Lsn {:trigger Made(st, st[d][j].origin, l)} ::
        Made(st, st[d][j].origin, l) && l <= st[d][j].lsn ==> TxBefore(st[d], j, st[d][j].origin, l)
  }

  /** The order of two items: the sender's own by position, no change twice, syncpoints of an origin not going back. */
  predicate PairOK(d: nat, a: Item, b: Item) {
    a.origin == b.origin ==>
      && (a.origin == d ==> a.lsn < b.lsn)
      && (a.Tx? && b.Tx? ==> a.lsn != b.lsn)
      && (a.Sync? && b.Sync? ==> a.lsn <= b.lsn)
  }

  ghost predicate StreamOK(st: Streams, me: nat, d: nat)
    requires d in st
  {
    && (forall i {:trigger ItemOK(st, me, d, i)} :: 0 <= i < |st[d]| ==> ItemOK(st, me, d, i))
    && (forall i, j {:trigger PairOK(d, st[d][i], st[d][j])} :: 0 <= i < j < |st[d]| ==> PairOK(d, st[d][i], st[d][j]))
    && (forall j {:trigger CompleteAt(st, me, d, j)} :: 0 <= j < |st[d]| ==> CompleteAt(st, me, d, j))
  }

  ghost predicate ValidStreams(st: Streams, me: nat) {
    forall d {:trigger StreamOK(st, me, d)} :: d in st ==> ValidNode(d) && d != me && StreamOK(st, me, d)
  }

  // ----- senders -----

  /** Items lie in order; the sender's own end where they are said to end. */
  ghost predicate PlacesOK(d: nat, s: seq<Item>, at: seq<Lsn>) {
    && |at| == |s|
    && (forall i :: 0 <= i < |s| && s[i].origin == d ==> at[i] < s[i].lsn)
    && (forall i, j :: 0 <= i < j < |s| ==> at[i] < at[j])
    && (forall i, j :: 0 <= i < j < |s| && s[i].origin == d ==> s[i].lsn <= at[j])
  }

  /** A row is about a syncpoint of another node, and lies before what the sender logged of later ones. */
  ghost predicate RowOK(st: Streams, me: nat, d: nat, at: seq<Lsn>, o: nat, upTo: Lsn, since: Lsn)
    requires d in st && |at| == |st[d]|
  {
    && o != d && (o != me ==> SyncOf(st, o, upTo))
    && (forall j :: 0 <= j < |at| && st[d][j].Sync? && st[d][j].origin == o && upTo < st[d][j].lsn ==> since <= at[j])
  }

  ghost predicate SenderOK(st: Streams, w: Senders, me: nat, d: nat)
    requires d in st
  {
    && d in w && PlacesOK(d, st[d], w[d].at)
    && (forall k {:trigger w[d].rows[k]} :: k in w[d].rows ==> RowOK(st, me, d, w[d].at, k.0, k.1, w[d].rows[k]))
  }

  ghost predicate ValidSenders(st: Streams, w: Senders, me: nat) {
    forall d {:trigger SenderOK(st, w, me, d)} :: d in st ==> SenderOK(st, w, me, d)
  }

  // ----- the latest syncpoint -----

  predicate IsRow(r: WalRecord, o: nat) {
    r.kind.Registration? && r.kind.about == o
  }

  /** A row about o at or beyond l, and exactly at l. */
  ghost predicate HasRow(wal: seq<WalRecord>, o: nat, l: Lsn) {
    exists r :: 0 <= r < |wal| && IsRow(wal[r], o) && wal[r].kind.upTo >= l
  }

  predicate HasExactly(wal: seq<WalRecord>, o: nat, l: Lsn) {
    exists r :: 0 <= r < |wal| && IsRow(wal[r], o) && wal[r].kind.upTo == l
  }

  /** SyncpointGetLatest: the registered syncpoint with the largest position, else the filter slot's. */
  function LatestSp(wal: seq<WalRecord>, o: nat): Syncpoint {
    if wal == [] then Syncpoint(0, 1)
    else
      var prev, last := LatestSp(wal[..|wal| - 1], o), wal[|wal| - 1];
      if IsRow(last, o) && last.kind.upTo > prev.originLsn then Syncpoint(last.kind.upTo, last.kind.since) else prev
  }

  lemma {:induction false} LatestSpIs(wal: seq<WalRecord>, o: nat)
    ensures LatestSp(wal, o) == Syncpoint(0, 1)
            || exists r :: 0 <= r < |wal| && IsRow(wal[r], o) && LatestSp(wal, o) == Syncpoint(wal[r].kind.upTo, wal[r].kind.since)
    ensures forall r :: 0 <= r < |wal| && IsRow(wal[r], o) ==> wal[r].kind.upTo <= LatestSp(wal, o).originLsn
  {
    if wal != [] {
      var init := wal[..|wal| - 1];
      LatestSpIs(init, o);
      if LatestSp(wal, o) == LatestSp(init, o) && LatestSp(init, o) != Syncpoint(0, 1) {
        var r :| 0 <= r < |init| && IsRow(init[r], o) && LatestSp(init, o) == Syncpoint(init[r].kind.upTo, init[r].kind.since);
        assert wal[r] == init[r];
      }
      forall r | 0 <= r < |wal| && IsRow(wal[r], o)
        ensures wal[r].kind.upTo <= LatestSp(wal, o).originLsn
      {
        if r < |init| {
          assert init[r] == wal[r];
        }
      }
    }
  }

  lemma LatestRow(wal: seq<WalRecord>, o: nat, l: Lsn)
    requires 0 < l <= LatestSp(wal, o).originLsn
    ensures HasRow(wal, o, l)
  {
    LatestSpIs(wal, o);
    var r :| 0 <= r < |wal| && IsRow(wal[r], o) && LatestSp(wal, o) == Syncpoint(wal[r].kind.upTo, wal[r].kind.since);
  }

  /** In normal mode a receiver knows the syncpoint of its sender only, in recovery those of all. */
  predicate Knows(st: Streams, d: nat, mode: Mode, o: nat) {
    o in st && (mode.Recovery? || o == d)
  }

  function SpVector(st: Streams, wal: seq<WalRecord>, d: nat, mode: Mode): (v: seq<Syncpoint>)
    ensures |v| == MTM_MAX_NODES
    ensures forall i :: 0 <= i < MTM_MAX_NODES ==> v[i] == if Knows(st, d, mode, i + 1) then LatestSp(wal, i + 1) else Syncpoint(0, 0)
  {
    seq(MTM_MAX_NODES, (i: nat) => if Knows(st, d, mode, i + 1) then LatestSp(wal, i + 1) else Syncpoint(0, 0))
  }

  // ----- steps -----

  /** What the sender sends in the mode, our own changes aside. */
  predicate Wanted(st: Streams, me: nat, d: nat, mode: Mode, i: nat)
    requires d in st && i < |st[d]|
  {
    st[d][i].origin != me && (mode.Recovery? || st[d][i].origin == d)
  }

  predicate Skipped(st: Streams, me: nat, d: nat, rc: Receiver, i: nat)
    requires d in st && i < |st[d]| && rc.Up?
  {
    var item := st[d][i];
    item.origin > MTM_MAX_NODES || |rc.spvector| != MTM_MAX_NODES || Skips(rc.filter, rc.spvector, me, item.origin, item.lsn)
  }

  /** The next item is a syncpoint to be registered. */
  predicate Registers(st: Streams, me: nat, d: nat, rc: Receiver)
    requires d in st && rc.Up? && rc.next < |st[d]|
  {
    Wanted(st, me, d, rc.mode, rc.next) && !Skipped(st, me, d, rc, rc.next) && st[d][rc.next].Sync?
  }

  /** Room for what one step logs. */
  predicate Room(wal: seq<WalRecord>) {
    |wal| + 4 < MAX_LSN
  }

  ghost predicate Enabled(st: Streams, me: nat, s: State, step: Step)
    requires s.receivers.Keys == st.Keys
  {
    match step
    case Start(d, mode, next, filter, from) =>
      && d in st && s.receivers[d].Down? && next <= |st[d]|
      // admission: a receiver in recovery is alone
      && (forall x :: x in st && s.receivers[x].Up? ==> mode.Normal? && s.receivers[x].mode.Normal?)
      && IsScanStart(SpVector(st, s.wal, d, mode), from)
      && IsFilter(filter, s.wal, from, if mode.Recovery? then 0 else d, SpVector(st, s.wal, d, mode))
    case Take(d) =>
      && d in st && s.receivers[d].Up? && s.receivers[d].next < |st[d]| && Room(s.wal)
      // recovery is serial, and a syncpoint waits for the workers
      && (s.receivers[d].mode.Recovery? || Registers(st, me, d, s.receivers[d]) ==> s.receivers[d].inflight == {})
    case Finish(d, i) => d in st && s.receivers[d].Up? && i in s.receivers[d].inflight && i < |st[d]| && Room(s.wal)
    case Log => Room(s.wal)
    case Flush(n) => s.flushed <= n <= |s.wal|
    case Stop(d) => d in st
    case Crash(n) => s.flushed <= n <= |s.wal|
  }

  /** The node's syncpoint table. */
  function TableOf(wal: seq<WalRecord>): SP.Rows {
    if wal == [] then map[]
    else
      var rest, k := TableOf(wal[..|wal| - 1]), wal[|wal| - 1].kind;
      if k.Registration? then rest[(k.about, k.upTo) := k.since] else rest
  }

  /** A copy of rows: it may be stale, and some may have been cleaned up. */
  predicate CopyOf(copy: SP.Rows, rows: SP.Rows) {
    forall k :: k in copy ==> k in rows && copy[k] == rows[k]
  }

  /** get_recovery_horizon for sender d, with a copy of d's rows. */
  function HorizonFrom(st: Streams, me: nat, wal: seq<WalRecord>, d: nat, copy: SP.Rows): SP.Option<Lsn> {
    SP.Horizon(map[me := TableOf(wal), d := copy], st.Keys + {me}, me, d)
  }

  /** Where a receiver asks its sender to start. */
  ghost predicate StartsFrom(st: Streams, w: Senders, me: nat, wal: seq<WalRecord>, d: nat, mode: Mode, h: Lsn)
    requires d in w
  {
    match mode
    case Normal => h == LatestSp(wal, d).originLsn
    case Recovery => exists copy :: CopyOf(copy, w[d].rows) && HorizonFrom(st, me, wal, d, copy) == SP.Some(h)
  }

  /** Items from next on are those that do not lie before h. */
  predicate Boundary(at: seq<Lsn>, next: nat, h: Lsn) {
    && next <= |at| && (forall i :: 0 <= i < next ==> at[i] < h) && (forall i :: next <= i < |at| ==> at[i] >= h)
  }

  /** A receiver starts at the sender's latest syncpoint or, in recovery, at the horizon. */
  ghost predicate Begins(st: Streams, w: Senders, me: nat, s: State, step: Step) {
    step.Start? ==> step.d in w && exists h :: StartsFrom(st, w, me, s.wal, step.d, step.mode, h) && Boundary(w[step.d].at, step.next, h)
  }

  function Logged(wal: seq<WalRecord>, origin: Origin, kind: Kind, originLsn: Lsn): seq<WalRecord> {
    wal + [WalRecord(|wal| + 1, origin, kind, originLsn)]
  }

  /** process_syncpoint: one received directly is logged with its mark, a forwarded one is not; on conflict nothing is inserted. */
  function Registered(wal: seq<WalRecord>, o: nat, l: Lsn, direct: bool): seq<WalRecord> {
    var wal1 := if direct then Logged(wal, Own, Mark(o, l), 0) else wal;
    if HasExactly(wal, o, l) then wal1 else Logged(wal1, Own, Registration(o, l, |wal1| + 1), 0)
  }

  function Apply(st: Streams, me: nat, s: State, step: Step): State
    requires s.receivers.Keys == st.Keys
  {
    match step
    case Start(d, mode, next, filter, from) =>
      s.(flushed := |s.wal|, receivers := s.receivers[d := Up(mode, next, {}, filter, SpVector(st, s.wal, d, mode))])
    case Take(d) =>
      if d in st && s.receivers[d].Up? && s.receivers[d].next < |st[d]| then
        var rc := s.receivers[d];
        var item, moved := st[d][rc.next], rc.(next := rc.next + 1);
        if Registers(st, me, d, rc) then
          s.(wal := Registered(s.wal, item.origin, item.lsn, item.origin == d), receivers := s.receivers[d := moved])
        else if Wanted(st, me, d, rc.mode, rc.next) && !Skipped(st, me, d, rc, rc.next) then
          s.(receivers := s.receivers[d := moved.(inflight := rc.inflight + {rc.next})])
        else s.(receivers := s.receivers[d := moved])
      else s
    case Finish(d, i) =>
      if d in st && s.receivers[d].Up? && i < |st[d]| && st[d][i].Tx? then
        s.(wal := Logged(s.wal, Node(st[d][i].origin), st[d][i].kind, st[d][i].lsn),
           receivers := s.receivers[d := s.receivers[d].(inflight := s.receivers[d].inflight - {i})])
      else s
    case Log => s.(wal := Logged(s.wal, Own, Other, 0))
    case Flush(n) => s.(flushed := n)
    case Stop(d) => s.(receivers := s.receivers[d := Down])
    case Crash(n) => if n <= |s.wal| then State(s.wal[..n], n, map d | d in s.receivers :: Down) else s
  }

  // ----- what holds in every run -----

  /** A row is beyond the earlier ones about its origin, here and at the origin. */
  ghost predicate NewestRow(wal: seq<WalRecord>, o: nat, upTo: Lsn, since: Lsn) {
    forall r :: 0 <= r < |wal| && IsRow(wal[r], o) ==> wal[r].kind.upTo < upTo && wal[r].kind.since <= since
  }

  /** What holds of one WAL record, given the records before it. */
  ghost predicate RecordOK(st: Streams, wal: seq<WalRecord>, k: nat)
    requires k < |wal|
  {
    var r := wal[k];
    && r.start == k + 1 && (r.origin.Node? ==> r.origin.id in st)
    && (IsTransaction(r) && r.origin.Node? ==> Made(st, r.origin.id, r.originLsn))
    && (r.kind.Registration? ==>
          && 0 < r.kind.since <= k + 1 && 0 < r.kind.upTo && SyncOf(st, r.kind.about, r.kind.upTo)
          && NewestRow(wal[..k], r.kind.about, r.kind.upTo, r.kind.since))
  }

  ghost predicate WalOK(st: Streams, wal: seq<WalRecord>) {
    |wal| < MAX_LSN - 1 && forall k {:trigger RecordOK(st, wal, k)} :: 0 <= k < |wal| ==> RecordOK(st, wal, k)
  }

  lemma WalPrefix(st: Streams, wal: seq<WalRecord>, n: nat)
    requires WalOK(st, wal) && n <= |wal|
    ensures WalOK(st, wal[..n])
  {
    forall k | 0 <= k < n
      ensures RecordOK(st, wal[..n], k)
    {
      assert RecordOK(st, wal, k);
      assert wal[..n][..k] == wal[..k];
    }
  }

  lemma WalAppend(st: Streams, wal: seq<WalRecord>, r: WalRecord)
    requires WalOK(st, wal) && RecordOK(st, wal + [r], |wal|) && |wal| < MAX_LSN - 2
    ensures WalOK(st, wal + [r])
  {
    var wal' := wal + [r];
    forall k | 0 <= k < |wal'|
      ensures RecordOK(st, wal', k)
    {
      if k < |wal| {
        assert RecordOK(st, wal, k);
        assert wal'[..k] == wal[..k];
      }
    }
  }

  /** What is before a prefix's end is before the whole's. */
  lemma PrefixFacts(wal: seq<WalRecord>, n: nat, o: nat, l: Lsn)
    requires n <= |wal|
    ensures Applied(wal[..n], o, l) ==> Applied(wal, o, l)
    ensures HasRow(wal[..n], o, l) ==> HasRow(wal, o, l)
  {
    assert forall k :: 0 <= k < n ==> wal[..n][k] == wal[k];
  }

  lemma LatestLocal(st: Streams, wal: seq<WalRecord>, o: nat)
    requires WalOK(st, wal)
    ensures LatestSp(wal, o).localLsn > 0
  {
    LatestSpIs(wal, o);
    if LatestSp(wal, o) != Syncpoint(0, 1) {
      var r :| 0 <= r < |wal| && IsRow(wal[r], o) && LatestSp(wal, o) == Syncpoint(wal[r].kind.upTo, wal[r].kind.since);
      assert RecordOK(st, wal, r);
    }
  }

  // ----- receivers -----

  /** A syncpoint that the receiver has passed, or is to skip, is registered. */
  ghost predicate SyncSeen(st: Streams, me: nat, wal: seq<WalRecord>, d: nat, rc: Receiver, i: nat)
    requires d in st && i < |st[d]| && rc.Up?
  {
    Wanted(st, me, d, rc.mode, i) && st[d][i].Sync? && (i < rc.next || Skipped(st, me, d, rc, i)) ==> HasRow(wal, st[d][i].origin, st[d][i].lsn)
  }

  /** A row is one the receiver started from, or not beyond the syncpoints to come, and before the sender's own. */
  ghost predicate PassedRow(st: Streams, wal: seq<WalRecord>, d: nat, rc: Receiver, r: nat)
    requires d in st && r < |wal| && rc.Up? && |rc.spvector| == MTM_MAX_NODES
  {
    wal[r].kind.Registration? && Knows(st, d, rc.mode, wal[r].kind.about) && ValidNode(wal[r].kind.about) ==>
      || wal[r].kind.upTo <= rc.spvector[wal[r].kind.about - 1].originLsn
      || forall i {:trigger st[d][i]} :: rc.next <= i < |st[d]| && st[d][i].Sync? && st[d][i].origin == wal[r].kind.about ==>
           wal[r].kind.upTo <= st[d][i].lsn && (wal[r].kind.about == d ==> wal[r].kind.upTo < st[d][i].lsn)
  }

  ghost predicate InflightOK(st: Streams, me: nat, d: nat, rc: Receiver, i: nat)
    requires d in st && rc.Up?
  {
    i in rc.inflight ==> i < rc.next <= |st[d]| && st[d][i].Tx? && Wanted(st, me, d, rc.mode, i)
  }

  ghost predicate ReceiverOK(st: Streams, me: nat, wal: seq<WalRecord>, d: nat, rc: Receiver)
    requires d in st
  {
    rc.Up? ==>
      && rc.next <= |st[d]| && |rc.spvector| == MTM_MAX_NODES
      && (forall i {:trigger InflightOK(st, me, d, rc, i)} :: i in rc.inflight ==> InflightOK(st, me, d, rc, i))
      && (forall i {:trigger SyncSeen(st, me, wal, d, rc, i)} :: 0 <= i < |st[d]| ==> SyncSeen(st, me, wal, d, rc, i))
      && (forall r {:trigger PassedRow(st, wal, d, rc, r)} :: 0 <= r < |wal| ==> PassedRow(st, wal, d, rc, r))
  }

  /** A receiver in recovery is alone. */
  ghost predicate Exclusive(st: Streams, receivers: map<nat, Receiver>)
    requires receivers.Keys == st.Keys
  {
    forall x, y {:trigger receivers[x], receivers[y]} ::
      x in st && y in st && x != y && receivers[x].Up? && receivers[y].Up? ==> receivers[x].mode.Normal?
  }

  ghost predicate Inv(st: Streams, me: nat, s: State) {
    && ValidStreams(st, me) && s.receivers.Keys == st.Keys && s.flushed <= |s.wal|
    && WalOK(st, s.wal) && Exclusive(st, s.receivers)
    && (forall d {:trigger ReceiverOK(st, me, s.wal, d, s.receivers[d])} :: d in st ==> ReceiverOK(st, me, s.wal, d, s.receivers[d]))
  }

  lemma RowStays(wal: seq<WalRecord>, wal': seq<WalRecord>, o: nat, l: Lsn)
    requires wal <= wal' && HasRow(wal, o, l)
    ensures HasRow(wal', o, l)
  {
    assert wal == wal'[..|wal|];
    PrefixFacts(wal', |wal|, o, l);
  }

  /** Records that are no rows about what the receiver knows leave it alone. */
  lemma ReceiverKeeps(st: Streams, me: nat, wal: seq<WalRecord>, wal': seq<WalRecord>, d: nat, rc: Receiver)
    requires d in st && ReceiverOK(st, me, wal, d, rc) && wal <= wal'
    requires rc.Up? ==> forall r :: |wal| <= r < |wal'| && wal'[r].kind.Registration? ==> !Knows(st, d, rc.mode, wal'[r].kind.about)
    ensures ReceiverOK(st, me, wal', d, rc)
  {
    if rc.Up? {
      forall i | 0 <= i < |st[d]|
        ensures SyncSeen(st, me, wal', d, rc, i)
      {
        assert SyncSeen(st, me, wal, d, rc, i);
        if HasRow(wal, st[d][i].origin, st[d][i].lsn) {
          RowStays(wal, wal', st[d][i].origin, st[d][i].lsn);
        }
      }
      forall r | 0 <= r < |wal'|
        ensures PassedRow(st, wal', d, rc, r)
      {
        if r < |wal| {
          assert PassedRow(st, wal, d, rc, r);
          assert wal'[r] == wal[r];
        }
      }
    }
  }

  // ----- steps -----

  /** A wanted item was made by a known origin. */
  lemma WantedItem(st: Streams, me: nat, d: nat, mode: Mode, i: nat)
    requires ValidStreams(st, me) && d in st && i < |st[d]| && Wanted(st, me, d, mode, i)
    ensures var item := st[d][i];
            && item.origin in st && ValidNode(item.origin) && item.origin != me && item.lsn > 0 && Knows(st, d, mode, item.origin)
            && (if item.Tx? then Made(st, item.origin, item.lsn) else SyncOf(st, item.origin, item.lsn))
  {
    assert StreamOK(st, me, d) && ItemOK(st, me, d, i);
    var o := st[d][i].origin;
    assert o == d && st[d][i].Tx? ==> IsTx(st[d][i], o, st[d][i].lsn);
    assert o in st && StreamOK(st, me, o);
  }

  /** A syncpoint does not end where a change of its origin ends. */
  lemma SyncNotMade(st: Streams, me: nat, o: nat, l: Lsn)
    requires ValidStreams(st, me) && SyncOf(st, o, l)
    ensures !Made(st, o, l)
  {
    assert StreamOK(st, me, o);
    var i :| 0 <= i < |st[o]| && st[o][i] == Sync(o, l);
    forall j | 0 <= j < |st[o]|
      ensures !IsTx(st[o][j], o, l)
    {
      assert i < j ==> PairOK(o, st[o][i], st[o][j]);
      assert j < i ==> PairOK(o, st[o][j], st[o][i]);
    }
  }

  lemma FilterMade(st: Streams, wal: seq<WalRecord>, filter: set<(nat, Lsn)>, from: Lsn, filterNode: nat, v: seq<Syncpoint>, o: nat, l: Lsn)
    requires WalOK(st, wal) && |v| == MTM_MAX_NODES && IsFilter(filter, wal, from, filterNode, v)
    ensures (o, l) in filter ==> Applied(wal, o, l) && Made(st, o, l)
  {
    if (o, l) in filter {
      var k :| 0 <= k < |wal| && wal[k].start >= from && Enters(wal[k], filterNode, v) && (o, l) == (wal[k].origin.id, wal[k].originLsn);
      assert IsRecordOf(wal[k], o, l);
      assert RecordOK(st, wal, k);
    }
  }

  /** A position in the table is that of a row. */
  lemma {:induction false} TableKeys(wal: seq<WalRecord>, o: nat, l: Lsn)
    ensures (o, l) in TableOf(wal) <==> HasExactly(wal, o, l)
  {
    if wal != [] {
      var init := wal[..|wal| - 1];
      TableKeys(init, o, l);
      if HasExactly(init, o, l) {
        var r :| 0 <= r < |init| && IsRow(init[r], o) && init[r].kind.upTo == l;
        assert wal[r] == init[r];
      }
      if HasExactly(wal, o, l) && !IsRow(wal[|wal| - 1], o) {
        var r :| 0 <= r < |wal| && IsRow(wal[r], o) && wal[r].kind.upTo == l;
        assert init[r] == wal[r];
      }
      if HasExactly(wal, o, l) && wal[|wal| - 1].kind.Registration? && wal[|wal| - 1].kind.upTo != l {
        var r :| 0 <= r < |wal| && IsRow(wal[r], o) && wal[r].kind.upTo == l;
        assert init[r] == wal[r];
      }
    }
  }

  /** The table's latest syncpoint of an origin is the one receivers start from. */
  lemma TableLatest(wal: seq<WalRecord>, o: nat)
    ensures SP.LatestLsn(TableOf(wal), o) == LatestSp(wal, o).originLsn
  {
    LatestSpIs(wal, o);
    var a, b := SP.LatestLsn(TableOf(wal), o), LatestSp(wal, o).originLsn;
    TableKeys(wal, o, a);
    TableKeys(wal, o, b);
    if b > 0 {
      assert HasExactly(wal, o, b) && b in SP.OriginLsns(TableOf(wal), o);
    }
    if a > 0 {
      assert HasExactly(wal, o, a);
    }
  }

  /** What an origin contributes to the horizon is not before the horizon. */
  lemma HorizonAtMost(st: Streams, me: nat, wal: seq<WalRecord>, d: nat, copy: SP.Rows, o: nat)
    requires d != me && o in st && o != me
    ensures var h := HorizonFrom(st, me, wal, d, copy);
            h.Some? && h.value <= if o == d then LatestSp(wal, d).originLsn else SP.EmitterLsn(copy, o, LatestSp(wal, o).originLsn)
  {
    var view: SP.View := map[me := TableOf(wal), d := copy];
    assert SP.RowsOf(view, me) == TableOf(wal) && SP.RowsOf(view, d) == copy;
    assert SP.HorizonTerm(view, me, d, o) in SP.HorizonTerms(view, st.Keys + {me}, me, d);
    TableLatest(wal, o);
  }

  /** The sender's own items before its latest syncpoint end there at the latest. */
  lemma OwnBefore(st: Streams, w: Senders, me: nat, wal: seq<WalRecord>, d: nat, i: nat)
    requires ValidStreams(st, me) && ValidSenders(st, w, me) && WalOK(st, wal)
    requires d in st && i < |st[d]| && st[d][i].origin == d && d in w && i < |w[d].at| && w[d].at[i] < LatestSp(wal, d).originLsn
    ensures st[d][i].lsn <= LatestSp(wal, d).originLsn
  {
    var l := LatestSp(wal, d).originLsn;
    LatestSpIs(wal, d);
    var r :| 0 <= r < |wal| && IsRow(wal[r], d) && wal[r].kind.upTo == l;
    assert RecordOK(st, wal, r) && SyncOf(st, d, l) && SenderOK(st, w, me, d) && StreamOK(st, me, d);
    var p :| 0 <= p < |st[d]| && st[d][p] == Sync(d, l);
    assert i < p ==> PairOK(d, st[d][i], st[d][p]);
  }

  /** What lies before the place a receiver starts from, and is a syncpoint or the sender's own, is not beyond the latest syncpoint of its origin. */
  lemma BeforeStart(st: Streams, w: Senders, me: nat, s: State, d: nat, mode: Mode, h: Lsn, i: nat)
    requires Inv(st, me, s) && ValidSenders(st, w, me) && d in st && d in w && StartsFrom(st, w, me, s.wal, d, mode, h)
    requires i < |st[d]| && Wanted(st, me, d, mode, i) && i < |w[d].at| && w[d].at[i] < h
    ensures st[d][i].Sync? || st[d][i].origin == d ==> st[d][i].lsn <= LatestSp(s.wal, st[d][i].origin).originLsn
  {
    var item := st[d][i];
    WantedItem(st, me, d, mode, i);
    assert StreamOK(st, me, d) && SenderOK(st, w, me, d);
    if mode.Normal? {
      OwnBefore(st, w, me, s.wal, d, i);
    } else {
      var copy :| CopyOf(copy, w[d].rows) && HorizonFrom(st, me, s.wal, d, copy) == SP.Some(h);
      HorizonAtMost(st, me, s.wal, d, copy, item.origin);
      if item.origin == d {
        OwnBefore(st, w, me, s.wal, d, i);
      } else {
        var upTo := SP.TranslateLsn(copy, item.origin, LatestSp(s.wal, item.origin).originLsn).value;
        var k := (item.origin, upTo);
        assert RowOK(st, me, d, w[d].at, k.0, k.1, w[d].rows[k]);
      }
    }
  }

  lemma StartSeen(st: Streams, w: Senders, me: nat, s: State, step: Step, i: nat)
    requires Inv(st, me, s) && ValidSenders(st, w, me) && step.Start? && Enabled(st, me, s, step) && Begins(st, w, me, s, step) && i < |st[step.d]|
    ensures SyncSeen(st, me, s.wal, step.d, Up(step.mode, step.next, {}, step.filter, SpVector(st, s.wal, step.d, step.mode)), i)
  {
    var d, mode, v, item := step.d, step.mode, SpVector(st, s.wal, step.d, step.mode), st[step.d][i];
    var rc := Up(mode, step.next, {}, step.filter, v);
    if Wanted(st, me, d, mode, i) && item.Sync? && (i < step.next || Skipped(st, me, d, rc, i)) {
      WantedItem(st, me, d, mode, i);
      if i < step.next {
        var h :| StartsFrom(st, w, me, s.wal, d, mode, h) && Boundary(w[d].at, step.next, h);
        BeforeStart(st, w, me, s, d, mode, h, i);
      } else {
        LatestLocal(st, s.wal, item.origin);
        FilterMade(st, s.wal, step.filter, step.from, if mode.Recovery? then 0 else d, v, item.origin, item.lsn);
        SyncNotMade(st, me, item.origin, item.lsn);
      }
      LatestRow(s.wal, item.origin, item.lsn);
    }
  }

  lemma StartOK(st: Streams, w: Senders, me: nat, s: State, step: Step)
    requires Inv(st, me, s) && ValidSenders(st, w, me) && step.Start? && Enabled(st, me, s, step) && Begins(st, w, me, s, step)
    ensures ReceiverOK(st, me, s.wal, step.d, Up(step.mode, step.next, {}, step.filter, SpVector(st, s.wal, step.d, step.mode)))
  {
    var wal, d, rc := s.wal, step.d, Up(step.mode, step.next, {}, step.filter, SpVector(st, s.wal, step.d, step.mode));
    forall i | 0 <= i < |st[d]|
      ensures SyncSeen(st, me, wal, d, rc, i)
    {
      StartSeen(st, w, me, s, step, i);
    }
    forall r | 0 <= r < |wal|
      ensures PassedRow(st, wal, d, rc, r)
    {
      if wal[r].kind.Registration? {
        LatestSpIs(wal, wal[r].kind.about);
      }
    }
  }

  /** Passing an item without logging: not wanted, skipped, or handed to the workers. */
  lemma TakeOK(st: Streams, me: nat, s: State, d: nat)
    requires Inv(st, me, s) && Enabled(st, me, s, Take(d)) && !Registers(st, me, d, s.receivers[d])
    ensures Apply(st, me, s, Take(d)).wal == s.wal
    ensures ReceiverOK(st, me, s.wal, d, Apply(st, me, s, Take(d)).receivers[d])
  {
    var rc, rc' := s.receivers[d], Apply(st, me, s, Take(d)).receivers[d];
    assert ReceiverOK(st, me, s.wal, d, rc);
    forall i | i in rc'.inflight
      ensures InflightOK(st, me, d, rc', i)
    {
      assert i in rc.inflight ==> InflightOK(st, me, d, rc, i);
    }
    forall i | 0 <= i < |st[d]|
      ensures SyncSeen(st, me, s.wal, d, rc', i)
    {
      assert SyncSeen(st, me, s.wal, d, rc, i);
    }
    forall r | 0 <= r < |s.wal|
      ensures PassedRow(st, s.wal, d, rc', r)
    {
      assert PassedRow(st, s.wal, d, rc, r);
    }
  }

  /** The new row is beyond the rows there are. */
  lemma SyncNewest(st: Streams, me: nat, s: State, d: nat, since: Lsn)
    requires Inv(st, me, s) && Enabled(st, me, s, Take(d)) && Registers(st, me, d, s.receivers[d]) && since > |s.wal|
    requires !HasExactly(s.wal, st[d][s.receivers[d].next].origin, st[d][s.receivers[d].next].lsn)
    ensures NewestRow(s.wal, st[d][s.receivers[d].next].origin, st[d][s.receivers[d].next].lsn, since)
  {
    var rc := s.receivers[d];
    WantedItem(st, me, d, rc.mode, rc.next);
    assert ReceiverOK(st, me, s.wal, d, rc);
    var o := st[d][rc.next].origin;
    forall r | 0 <= r < |s.wal| && IsRow(s.wal[r], o)
      ensures s.wal[r].kind.upTo < st[d][rc.next].lsn && s.wal[r].kind.since <= since
    {
      assert PassedRow(st, s.wal, d, rc, r) && RecordOK(st, s.wal, r);
    }
  }

  lemma NewestLonger(wal: seq<WalRecord>, r: WalRecord, o: nat, upTo: Lsn, since: Lsn)
    requires NewestRow(wal, o, upTo, since) && !r.kind.Registration?
    ensures NewestRow(wal + [r], o, upTo, since)
  {
  }

  lemma SyncWal(st: Streams, me: nat, s: State, d: nat)
    requires Inv(st, me, s) && Enabled(st, me, s, Take(d)) && Registers(st, me, d, s.receivers[d])
    ensures WalOK(st, Apply(st, me, s, Take(d)).wal)
  {
    var wal, rc := s.wal, s.receivers[d];
    var o, l := st[d][rc.next].origin, st[d][rc.next].lsn;
    WantedItem(st, me, d, rc.mode, rc.next);
    var wal1 := if o == d then Logged(wal, Own, Mark(o, l), 0) else wal;
    if o == d {
      assert wal1[..|wal|] == wal;
      WalAppend(st, wal, wal1[|wal|]);
    }
    if !HasExactly(wal, o, l) {
      var since := |wal1| + 1;
      SyncNewest(st, me, s, d, since);
      if o == d {
        NewestLonger(wal, wal1[|wal|], o, l, since);
      }
      var row := WalRecord(|wal1| + 1, Own, Registration(o, l, since), 0);
      assert (wal1 + [row])[..|wal1|] == wal1;
      WalAppend(st, wal1, row);
    }
  }

  lemma RegisteredHas(wal: seq<WalRecord>, o: nat, l: Lsn, direct: bool)
    ensures wal <= Registered(wal, o, l, direct) && HasExactly(Registered(wal, o, l, direct), o, l)
    ensures forall r :: |wal| <= r < |Registered(wal, o, l, direct)| && Registered(wal, o, l, direct)[r].kind.Registration? ==>
              Registered(wal, o, l, direct)[r].kind.about == o && Registered(wal, o, l, direct)[r].kind.upTo == l
  {
    var wal' := Registered(wal, o, l, direct);
    if HasExactly(wal, o, l) {
      var r :| 0 <= r < |wal| && IsRow(wal[r], o) && wal[r].kind.upTo == l;
      assert wal'[r] == wal[r];
    } else {
      assert IsRow(wal'[|wal'| - 1], o) && wal'[|wal'| - 1].kind.upTo == l;
    }
  }

  lemma SyncReceiver(st: Streams, me: nat, s: State, d: nat)
    requires Inv(st, me, s) && Enabled(st, me, s, Take(d)) && Registers(st, me, d, s.receivers[d])
    ensures var s' := Apply(st, me, s, Take(d)); ReceiverOK(st, me, s'.wal, d, s'.receivers[d])
  {
    var s' := Apply(st, me, s, Take(d));
    var rc, rc', wal, wal' := s.receivers[d], s'.receivers[d], s.wal, s'.wal;
    var item := st[d][rc.next];
    assert ReceiverOK(st, me, wal, d, rc) && StreamOK(st, me, d);
    RegisteredHas(wal, item.origin, item.lsn, item.origin == d);
    forall i | 0 <= i < |st[d]|
      ensures SyncSeen(st, me, wal', d, rc', i)
    {
      assert SyncSeen(st, me, wal, d, rc, i);
      if i == rc.next {
        var r :| 0 <= r < |wal'| && IsRow(wal'[r], item.origin) && wal'[r].kind.upTo == item.lsn;
      } else if HasRow(wal, st[d][i].origin, st[d][i].lsn) {
        RowStays(wal, wal', st[d][i].origin, st[d][i].lsn);
      }
    }
    forall r | 0 <= r < |wal'|
      ensures PassedRow(st, wal', d, rc', r)
    {
      if r < |wal| {
        assert PassedRow(st, wal, d, rc, r) && wal'[r] == wal[r];
      } else if wal'[r].kind.Registration? {
        forall i | rc'.next <= i < |st[d]| && st[d][i].Sync? && st[d][i].origin == item.origin
          ensures item.lsn <= st[d][i].lsn && (item.origin == d ==> item.lsn < st[d][i].lsn)
        {
          assert PairOK(d, st[d][rc.next], st[d][i]);
        }
      }
    }
  }

  lemma SyncOK(st: Streams, me: nat, s: State, d: nat)
    requires Inv(st, me, s) && Enabled(st, me, s, Take(d)) && Registers(st, me, d, s.receivers[d])
    ensures Inv(st, me, Apply(st, me, s, Take(d)))
  {
    var s', item := Apply(st, me, s, Take(d)), st[d][s.receivers[d].next];
    SyncWal(st, me, s, d);
    RegisteredHas(s.wal, item.origin, item.lsn, item.origin == d);
    forall x | x in st
      ensures ReceiverOK(st, me, s'.wal, x, s'.receivers[x])
    {
      if x == d {
        SyncReceiver(st, me, s, d);
      } else {
        assert ReceiverOK(st, me, s.wal, x, s.receivers[x]);
        assert s.receivers[x].Up? ==> s.receivers[x].mode.Normal? && s.receivers[d].mode.Normal?;
        ReceiverKeeps(st, me, s.wal, s'.wal, x, s.receivers[x]);
      }
    }
  }

  lemma FinishWal(st: Streams, me: nat, s: State, d: nat, i: nat)
    requires Inv(st, me, s) && Enabled(st, me, s, Finish(d, i))
    ensures st[d][i].Tx? && Wanted(st, me, d, s.receivers[d].mode, i) && WalOK(st, Apply(st, me, s, Finish(d, i)).wal)
  {
    var rc, item := s.receivers[d], st[d][i];
    assert ReceiverOK(st, me, s.wal, d, rc) && InflightOK(st, me, d, rc, i);
    WantedItem(st, me, d, rc.mode, i);
    var r := WalRecord(|s.wal| + 1, Node(item.origin), item.kind, item.lsn);
    assert StreamOK(st, me, d) && ItemOK(st, me, d, i);
    WalAppend(st, s.wal, r);
  }

  lemma FinishReceiver(st: Streams, me: nat, s: State, d: nat, i: nat)
    requires Inv(st, me, s) && Enabled(st, me, s, Finish(d, i)) && st[d][i].Tx?
    ensures var s' := Apply(st, me, s, Finish(d, i)); ReceiverOK(st, me, s'.wal, d, s'.receivers[d])
  {
    var s' := Apply(st, me, s, Finish(d, i));
    var rc, rc', wal, wal' := s.receivers[d], s'.receivers[d], s.wal, s'.wal;
    assert ReceiverOK(st, me, wal, d, rc) && StreamOK(st, me, d) && ItemOK(st, me, d, i);
    assert IsRecordOf(wal'[|wal|], st[d][i].origin, st[d][i].lsn);
    ReceiverKeeps(st, me, wal, wal', d, rc);
    forall j | j in rc'.inflight
      ensures InflightOK(st, me, d, rc', j)
    {
      assert InflightOK(st, me, d, rc, j);
    }
    forall j | 0 <= j < |st[d]|
      ensures SyncSeen(st, me, wal', d, rc', j)
    {
      assert SyncSeen(st, me, wal', d, rc, j);
    }
    forall r | 0 <= r < |wal'|
      ensures PassedRow(st, wal', d, rc', r)
    {
      assert PassedRow(st, wal', d, rc, r);
    }
  }

  lemma FinishOK(st: Streams, me: nat, s: State, d: nat, i: nat)
    requires Inv(st, me, s) && Enabled(st, me, s, Finish(d, i))
    ensures Inv(st, me, Apply(st, me, s, Finish(d, i)))
  {
    var s' := Apply(st, me, s, Finish(d, i));
    FinishWal(st, me, s, d, i);
    assert StreamOK(st, me, d) && ItemOK(st, me, d, i);
    forall x | x in st
      ensures ReceiverOK(st, me, s'.wal, x, s'.receivers[x])
    {
      if x == d {
        FinishReceiver(st, me, s, d, i);
      } else {
        assert ReceiverOK(st, me, s.wal, x, s.receivers[x]);
        ReceiverKeeps(st, me, s.wal, s'.wal, x, s.receivers[x]);
      }
    }
  }

  lemma LogOK(st: Streams, me: nat, s: State)
    requires Inv(st, me, s) && Enabled(st, me, s, Log)
    ensures Inv(st, me, Apply(st, me, s, Log))
  {
    var wal' := Apply(st, me, s, Log).wal;
    WalAppend(st, s.wal, wal'[|s.wal|]);
    forall x | x in st
      ensures ReceiverOK(st, me, wal', x, s.receivers[x])
    {
      assert ReceiverOK(st, me, s.wal, x, s.receivers[x]);
      ReceiverKeeps(st, me, s.wal, wal', x, s.receivers[x]);
    }
  }

  /** Only d's receiver changed, and it is all right. */
  lemma Others(st: Streams, me: nat, s: State, s': State, d: nat)
    requires Inv(st, me, s) && s'.wal == s.wal && s'.flushed <= |s'.wal| && d in st
    requires s'.receivers.Keys == st.Keys && (forall x :: x in st && x != d ==> s'.receivers[x] == s.receivers[x])
    requires ReceiverOK(st, me, s'.wal, d, s'.receivers[d]) && Exclusive(st, s'.receivers)
    ensures Inv(st, me, s')
  {
    forall x | x in st
      ensures ReceiverOK(st, me, s'.wal, x, s'.receivers[x])
    {
      if x != d {
        assert ReceiverOK(st, me, s.wal, x, s.receivers[x]);
      }
    }
  }

  lemma StepInv(st: Streams, w: Senders, me: nat, s: State, step: Step)
    requires Inv(st, me, s) && ValidSenders(st, w, me) && Enabled(st, me, s, step) && Begins(st, w, me, s, step)
    ensures Inv(st, me, Apply(st, me, s, step))
  {
    var s' := Apply(st, me, s, step);
    match step
    case Start(d, mode, next, filter, from) =>
      StartOK(st, w, me, s, step);
      Others(st, me, s, s', d);
    case Take(d) =>
      if Registers(st, me, d, s.receivers[d]) {
        SyncOK(st, me, s, d);
      } else {
        TakeOK(st, me, s, d);
        Others(st, me, s, s', d);
      }
    case Finish(d, i) => FinishOK(st, me, s, d, i);
    case Log => LogOK(st, me, s);
    case Flush(n) =>
      forall x | x in st
        ensures ReceiverOK(st, me, s'.wal, x, s'.receivers[x])
      {
        assert ReceiverOK(st, me, s.wal, x, s.receivers[x]);
      }
    case Stop(d) => Others(st, me, s, s', d);
    case Crash(n) => WalPrefix(st, s.wal, n);
  }

  // ----- whole runs -----

  ghost predicate Init(st: Streams, s: State) {
    s.wal == [] && s.flushed == 0 && s.receivers == map d | d in st :: Down
  }

  ghost predicate Next(st: Streams, w: Senders, me: nat, s: State, s': State) {
    s.receivers.Keys == st.Keys && exists step :: Enabled(st, me, s, step) && Begins(st, w, me, s, step) && s' == Apply(st, me, s, step)
  }

  ghost predicate StepAt(st: Streams, w: Senders, me: nat, run: seq<State>, i: nat)
    requires i + 1 < |run|
  {
    Next(st, w, me, run[i], run[i + 1])
  }

  /** Consecutive states are steps. */
  ghost predicate Path(st: Streams, w: Senders, me: nat, run: seq<State>) {
    |run| > 0 && forall i {:trigger StepAt(st, w, me, run, i)} :: 0 <= i < |run| - 1 ==> StepAt(st, w, me, run, i)
  }

  ghost predicate Run(st: Streams, w: Senders, me: nat, run: seq<State>) {
    ValidStreams(st, me) && ValidSenders(st, w, me) && Path(st, w, me, run) && Init(st, run[0])
  }

  lemma NextInv(st: Streams, w: Senders, me: nat, s: State, s': State)
    requires Inv(st, me, s) && ValidSenders(st, w, me) && Next(st, w, me, s, s')
    ensures Inv(st, me, s')
  {
    var step :| Enabled(st, me, s, step) && Begins(st, w, me, s, step) && s' == Apply(st, me, s, step);
    StepInv(st, w, me, s, step);
  }

  lemma {:induction false} RunInv(st: Streams, w: Senders, me: nat, run: seq<State>, i: nat)
    requires Run(st, w, me, run) && i < |run|
    ensures Inv(st, me, run[i])
  {
    if i > 0 {
      RunInv(st, w, me, run, i - 1);
      assert StepAt(st, w, me, run, i - 1);
      NextInv(st, w, me, run[i - 1], run[i]);
    }
  }

  /** In every run: a node registers syncpoints of an origin at growing positions, there and here. */
  lemma RowsAdvance(st: Streams, w: Senders, me: nat, run: seq<State>, i: nat, q: nat, r: nat, o: nat)
    requires Run(st, w, me, run) && i < |run| && q < r < |run[i].wal| && IsRow(run[i].wal[q], o) && IsRow(run[i].wal[r], o)
    ensures run[i].wal[q].kind.upTo < run[i].wal[r].kind.upTo && run[i].wal[q].kind.since <= run[i].wal[r].kind.since
  {
    RunInv(st, w, me, run, i);
    assert RecordOK(st, run[i].wal, r);
    assert run[i].wal[..r][q] == run[i].wal[q];
  }
}

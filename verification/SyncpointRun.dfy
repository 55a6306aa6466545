/**
  The syncpoints table as every node sees it: each node inserts and deletes only its own rows, and
  the others replay these operations in order, each at its own pace.  In every run the recovery
  horizons never move back, although cleanup is decided on stale copies of the others' rows.
 */
module SyncpointRun {
  import opened Syncpoints

  /** What a node did to its own rows. */
  datatype Op = Insert(origin: nat, lsn: Lsn, local: Lsn) | Delete(keys: set<(nat, Lsn)>)

  function Perform(rows: Rows, op: Op): Rows {
    match op
    case Insert(origin, lsn, local) => Inserted(rows, origin, lsn, local)
    case Delete(keys) => rows - keys
  }

  function Play(log: seq<Op>): Rows {
    if log == [] then map[] else Perform(Play(log[..|log| - 1]), log[|log| - 1])
  }

  /** logs[n]: what n did; seen[(m, n)]: how much of it m has replayed. */
  datatype State = State(logs: map<nat, seq<Op>>, seen: map<(nat, nat), nat>)

  datatype Step =
    | Register(n: nat, origin: nat, lsn: Lsn, local: Lsn)
    | Cleanup(n: nat)
    | Deliver(m: nat, n: nat)

  predicate Shape(nodes: set<nat>, s: State) {
    && s.logs.Keys == nodes
    && (forall m, n :: m in nodes && n in nodes ==> (m, n) in s.seen && s.seen[(m, n)] <= |s.logs[n]|)
    && (forall n :: n in nodes ==> s.seen[(n, n)] == |s.logs[n]|)
  }

  /** Node n's rows as m has them. */
  function Copy(nodes: set<nat>, s: State, m: nat, n: nat): Rows
    requires Shape(nodes, s) && m in nodes && n in nodes
  {
    Play(s.logs[n][..s.seen[(m, n)]])
  }

  function Table(nodes: set<nat>, s: State, m: nat): View
    requires Shape(nodes, s) && m in nodes
  {
    map n | n in nodes :: Copy(nodes, s, m, n)
  }

  predicate Init(nodes: set<nat>, s: State) {
    Shape(nodes, s) && forall n :: n in nodes ==> s.logs[n] == []
  }

  ghost predicate Enabled(nodes: set<nat>, s: State, step: Step)
    requires Shape(nodes, s)
  {
    match step
    case Register(n, origin, lsn, local) => n in nodes && origin in nodes && n != origin && Newer(Play(s.logs[n]), origin, lsn, local)
    case Cleanup(n) => n in nodes
    case Deliver(m, n) => m in nodes && n in nodes && m != n && s.seen[(m, n)] < |s.logs[n]|
  }

  function Append(s: State, n: nat, op: Op): State
    requires n in s.logs
  {
    State(s.logs[n := s.logs[n] + [op]], s.seen[(n, n) := |s.logs[n]| + 1])
  }

  function Apply(nodes: set<nat>, s: State, step: Step): State
    requires Shape(nodes, s)
  {
    match step
    case Register(n, origin, lsn, local) => if n in nodes then Append(s, n, Insert(origin, lsn, local)) else s
    case Cleanup(n) => if n in nodes then Append(s, n, Delete(ObsoleteKeys(Table(nodes, s, n), nodes, n))) else s
    case Deliver(m, n) => if m in nodes && n in nodes then s.(seen := s.seen[(m, n) := s.seen[(m, n)] + 1]) else s
  }

  // ----- what the steps do -----

  /** A registration adds a row to the node's own copy, a cleanup takes the obsolete ones out of it, and a replay brings another copy one operation further. */
  lemma StepDoes(nodes: set<nat>, s: State, step: Step)
    requires Shape(nodes, s) && Enabled(nodes, s, step)
    ensures Shape(nodes, Apply(nodes, s, step))
    ensures var s' := Apply(nodes, s, step);
            match step
            case Register(n, origin, lsn, local) =>
              && Copy(nodes, s', n, n).Keys == Copy(nodes, s, n, n).Keys + {(origin, lsn)} && Copy(nodes, s', n, n)[(origin, lsn)] == local
              && (forall k :: k in Copy(nodes, s, n, n) ==> Copy(nodes, s', n, n)[k] == Copy(nodes, s, n, n)[k])
            case Cleanup(n) => Copy(nodes, s', n, n) == Copy(nodes, s, n, n) - ObsoleteKeys(Table(nodes, s, n), nodes, n)
            case Deliver(m, n) => s'.seen[(m, n)] == s.seen[(m, n)] + 1 && s'.logs == s.logs
  {
    match step
    case Register(n, origin, lsn, local) =>
      assert s.logs[n][..|s.logs[n]|] == s.logs[n];
      OwnCopy(nodes, s, n, Insert(origin, lsn, local));
    case Cleanup(n) => OwnCopy(nodes, s, n, Delete(ObsoleteKeys(Table(nodes, s, n), nodes, n)));
    case Deliver(m, n) =>
  }

  lemma OwnCopy(nodes: set<nat>, s: State, n: nat, op: Op)
    requires Shape(nodes, s) && n in nodes
    ensures Shape(nodes, Append(s, n, op)) && Copy(nodes, Append(s, n, op), n, n) == Perform(Copy(nodes, s, n, n), op)
  {
    var log := s.logs[n];
    assert log[..|log|] == log && (log + [op])[..|log| + 1] == log + [op];
    PlayAppend(log, op);
  }

  /** Who has replayed everything has the node's own copy. */
  lemma CaughtUp(nodes: set<nat>, s: State, m: nat, n: nat)
    requires Shape(nodes, s) && m in nodes && n in nodes && s.seen[(m, n)] == |s.logs[n]|
    ensures Copy(nodes, s, m, n) == Copy(nodes, s, n, n)
  {
  }

  // ----- invariant -----

  /** A log whose insertions are new and whose deletions keep the node's own latest syncpoints. */
  ghost predicate LogOK(nodes: set<nat>, log: seq<Op>) {
    forall k {:trigger OpAt(nodes, log, k)} :: 0 <= k < |log| ==> OpAt(nodes, log, k)
  }

  ghost predicate OpAt(nodes: set<nat>, log: seq<Op>, k: nat)
    requires k < |log|
  {
    OpOK(nodes, Play(log[..k]), log[k])
  }

  ghost predicate OpOK(nodes: set<nat>, rows: Rows, op: Op) {
    match op
    case Insert(origin, lsn, local) => Newer(rows, origin, lsn, local)
    case Delete(keys) => forall o :: o in nodes ==> LatestLsn(rows - keys, o) == LatestLsn(rows, o)
  }

  /** No deletion in n's log touches a translation that node m can still ask for. */
  ghost predicate Harmless(nodes: set<nat>, s: State, n: nat, k: nat, m: nat)
    requires Shape(nodes, s) && n in nodes && m in nodes && k < |s.logs[n]|
  {
    s.logs[n][k].Delete? ==>
      forall o, lsn {:trigger Unaffected(Play(s.logs[n][..k]), s.logs[n][k].keys, o, lsn)} ::
        o in nodes && o != m && lsn >= LatestLsn(Play(s.logs[m]), o) ==>
          Unaffected(Play(s.logs[n][..k]), s.logs[n][k].keys, o, lsn)
  }

  ghost predicate Inv(nodes: set<nat>, s: State) {
    && Shape(nodes, s)
    && (forall n {:trigger LogOK(nodes, s.logs[n])} :: n in nodes ==> LogOK(nodes, s.logs[n]))
    && (forall n, k, m {:trigger Harmless(nodes, s, n, k, m)} ::
          n in nodes && m in nodes && 0 <= k < |s.logs[n]| ==> Harmless(nodes, s, n, k, m))
  }

  lemma InitInv(nodes: set<nat>, s: State)
    requires Init(nodes, s)
    ensures Inv(nodes, s)
  {
  }

  // ----- logs -----

  lemma PlayNext(log: seq<Op>, k: nat)
    requires k < |log|
    ensures Play(log[..k + 1]) == Perform(Play(log[..k]), log[k])
  {
    assert log[..k + 1][..k] == log[..k];
  }

  lemma PlayAppend(log: seq<Op>, op: Op)
    ensures Play(log + [op]) == Perform(Play(log), op)
  {
    assert (log + [op])[..|log|] == log;
  }

  lemma LogAppend(nodes: set<nat>, log: seq<Op>, op: Op)
    requires LogOK(nodes, log) && OpOK(nodes, Play(log), op)
    ensures LogOK(nodes, log + [op])
  {
    var log' := log + [op];
    forall k | 0 <= k < |log'|
      ensures OpAt(nodes, log', k)
    {
      assert log'[..k] == log[..k];
      if k == |log| {
        assert log[..k] == log;
      } else {
        assert OpAt(nodes, log, k);
      }
    }
  }

  /** Along a log, receiver positions stay ordered. */
  lemma {:induction false} PlayOrdered(nodes: set<nat>, log: seq<Op>, k: nat)
    requires LogOK(nodes, log) && k <= |log|
    ensures Ordered(Play(log[..k]))
  {
    if k > 0 {
      PlayOrdered(nodes, log, k - 1);
      PlayNext(log, k - 1);
      assert OpAt(nodes, log, k - 1);
      if log[k - 1].Insert? {
        InsertGrows(Play(log[..k - 1]), log[k - 1].origin, log[k - 1].lsn, log[k - 1].local, 0, 0);
      }
    }
  }

  /** Along a log, the latest syncpoint of an origin only grows. */
  lemma {:induction false} PlayLatest(nodes: set<nat>, log: seq<Op>, i: nat, j: nat, o: nat)
    requires LogOK(nodes, log) && i <= j <= |log| && o in nodes
    ensures LatestLsn(Play(log[..i]), o) <= LatestLsn(Play(log[..j]), o)
  {
    if i < j {
      PlayLatest(nodes, log, i, j - 1, o);
      PlayNext(log, j - 1);
      assert OpAt(nodes, log, j - 1);
      if log[j - 1].Insert? {
        PlayOrdered(nodes, log, j - 1);
        InsertGrows(Play(log[..j - 1]), log[j - 1].origin, log[j - 1].lsn, log[j - 1].local, o, 0);
      }
    }
  }

  // ----- steps -----

  lemma AppendShape(nodes: set<nat>, s: State, n: nat, op: Op)
    requires Shape(nodes, s) && n in nodes
    ensures Shape(nodes, Append(s, n, op))
  {
  }

  /** Appending to n's log an operation that keeps or raises n's latest syncpoints keeps older deletions harmless. */
  lemma AppendKeepsHarmless(nodes: set<nat>, s: State, n: nat, op: Op, x: nat, k: nat, m: nat)
    requires Inv(nodes, s) && n in nodes && x in nodes && m in nodes && k < |s.logs[x]| && OpOK(nodes, Play(s.logs[n]), op)
    ensures Shape(nodes, Append(s, n, op)) && Harmless(nodes, Append(s, n, op), x, k, m)
  {
    var s' := Append(s, n, op);
    AppendShape(nodes, s, n, op);
    assert Harmless(nodes, s, x, k, m);
    assert s'.logs[x][k] == s.logs[x][k] && s'.logs[x][..k] == s.logs[x][..k];
    forall o | o in nodes
      ensures LatestLsn(Play(s.logs[m]), o) <= LatestLsn(Play(s'.logs[m]), o)
    {
      if m == n {
        var log := s.logs[n] + [op];
        LogAppend(nodes, s.logs[n], op);
        PlayLatest(nodes, log, |log| - 1, |log|, o);
        assert log[..|log| - 1] == s.logs[n] && log[..|log|] == log;
      }
    }
  }

  lemma CleanupOK(nodes: set<nat>, s: State, n: nat)
    requires Inv(nodes, s) && n in nodes
    ensures OpOK(nodes, Play(s.logs[n]), Delete(ObsoleteKeys(Table(nodes, s, n), nodes, n)))
    ensures RowsOf(Table(nodes, s, n), n) == Play(s.logs[n])
  {
    var view := Table(nodes, s, n);
    assert s.logs[n][..|s.logs[n]|] == s.logs[n];
    forall o | o in nodes
      ensures LatestLsn(Play(s.logs[n]) - ObsoleteKeys(view, nodes, n), o) == LatestLsn(Play(s.logs[n]), o)
    {
      CleanupKeepsLatest(view, nodes, n, o);
    }
  }

  /** The deletion that cleanup has just decided, on n's stale view, is harmless to every node. */
  lemma CleanupHarmless(nodes: set<nat>, s: State, n: nat, m: nat)
    requires Inv(nodes, s) && n in nodes && m in nodes
    ensures var s' := Apply(nodes, s, Cleanup(n));
            Shape(nodes, s') && Harmless(nodes, s', n, |s.logs[n]|, m)
  {
    var view := Table(nodes, s, n);
    var op := Delete(ObsoleteKeys(view, nodes, n));
    var s' := Append(s, n, op);
    AppendShape(nodes, s, n, op);
    CleanupOK(nodes, s, n);
    var log' := s'.logs[n];
    assert log'[..|s.logs[n]|] == s.logs[n];
    forall o, lsn | o in nodes && o != m && lsn >= LatestLsn(Play(s'.logs[m]), o)
      ensures Unaffected(Play(s.logs[n]), op.keys, o, lsn)
    {
      assert s.logs[m][..|s.logs[m]|] == s.logs[m];
      PlayLatest(nodes, s.logs[m], s.seen[(n, m)], |s.logs[m]|, o);
      assert LatestLsn(Play(s.logs[m]), o) == LatestLsn(Play(s'.logs[m]), o) by {
        PlayAppend(s.logs[n], op);
      }
      assert RowsOf(view, m) == Copy(nodes, s, n, m);
      CleanupKeepsAnswers(view, nodes, n, o, m, lsn);
    }
  }

  lemma AppendInv(nodes: set<nat>, s: State, n: nat, op: Op)
    requires Inv(nodes, s) && n in nodes && OpOK(nodes, Play(s.logs[n]), op)
    requires Shape(nodes, Append(s, n, op))
    requires forall m {:trigger Harmless(nodes, Append(s, n, op), n, |s.logs[n]|, m)} :: m in nodes ==> Harmless(nodes, Append(s, n, op), n, |s.logs[n]|, m)
    ensures Inv(nodes, Append(s, n, op))
  {
    var s' := Append(s, n, op);
    LogAppend(nodes, s.logs[n], op);
    forall x, k, m | x in nodes && m in nodes && 0 <= k < |s'.logs[x]|
      ensures Harmless(nodes, s', x, k, m)
    {
      if k < |s.logs[x]| {
        AppendKeepsHarmless(nodes, s, n, op, x, k, m);
      }
    }
  }

  lemma StepInv(nodes: set<nat>, s: State, step: Step)
    requires Inv(nodes, s) && Enabled(nodes, s, step)
    ensures Inv(nodes, Apply(nodes, s, step))
  {
    var s' := Apply(nodes, s, step);
    match step
    case Register(n, origin, lsn, local) =>
      AppendShape(nodes, s, n, Insert(origin, lsn, local));
      AppendInv(nodes, s, n, Insert(origin, lsn, local));
    case Cleanup(n) =>
      var op := Delete(ObsoleteKeys(Table(nodes, s, n), nodes, n));
      AppendShape(nodes, s, n, op);
      CleanupOK(nodes, s, n);
      forall m | m in nodes
        ensures Harmless(nodes, Append(s, n, op), n, |s.logs[n]|, m)
      {
        CleanupHarmless(nodes, s, n, m);
      }
      AppendInv(nodes, s, n, op);
    case Deliver(_, _) =>
      forall x, k, m | x in nodes && m in nodes && 0 <= k < |s'.logs[x]|
        ensures Harmless(nodes, s', x, k, m)
      {
        assert Harmless(nodes, s, x, k, m);
      }
  }

  // ----- horizons -----

  /** The horizon node m would report to sender. */
  function HorizonAt(nodes: set<nat>, s: State, m: nat, sender: nat): Option<Lsn>
    requires Shape(nodes, s) && m in nodes
  {
    Horizon(Table(nodes, s, m), nodes, m, sender)
  }

  predicate NotBack(before: Option<Lsn>, after: Option<Lsn>) {
    if before.None? then after.None? else after.Some? && before.value <= after.value
  }

  /** One more operation of x never makes m's own latest syncpoint translate to an earlier position. */
  lemma ReplayEmitter(nodes: set<nat>, s: State, x: nat, k: nat, m: nat, o: nat)
    requires Inv(nodes, s) && x in nodes && m in nodes && k < |s.logs[x]| && o in nodes && o != m
    ensures var latest := LatestLsn(Play(s.logs[m]), o);
            EmitterLsn(Play(s.logs[x][..k]), o, latest) <= EmitterLsn(Play(s.logs[x][..k + 1]), o, latest)
  {
    var log, latest := s.logs[x], LatestLsn(Play(s.logs[m]), o);
    PlayNext(log, k);
    assert LogOK(nodes, log) && OpAt(nodes, log, k);
    match log[k]
    case Insert(origin, lsn, local) =>
      PlayOrdered(nodes, log, k);
      InsertGrows(Play(log[..k]), origin, lsn, local, o, latest);
    case Delete(keys) =>
      assert Harmless(nodes, s, x, k, m);
      assert Unaffected(Play(log[..k]), keys, o, latest);
  }

  /** Replaying one operation of x changes m's copy of x's rows only. */
  lemma ReplayTable(nodes: set<nat>, s: State, m: nat, x: nat)
    requires Shape(nodes, s) && m in nodes && x in nodes && m != x && s.seen[(m, x)] < |s.logs[x]|
    ensures var s' := Apply(nodes, s, Deliver(m, x));
            && Shape(nodes, s')
            && RowsOf(Table(nodes, s', m), m) == RowsOf(Table(nodes, s, m), m) == Play(s.logs[m])
            && RowsOf(Table(nodes, s, m), x) == Play(s.logs[x][..s.seen[(m, x)]])
            && RowsOf(Table(nodes, s', m), x) == Play(s.logs[x][..s.seen[(m, x)] + 1])
            && forall n :: n in nodes && n != x ==> RowsOf(Table(nodes, s', m), n) == RowsOf(Table(nodes, s, m), n)
  {
    assert s.logs[m][..|s.logs[m]|] == s.logs[m];
  }

  /** One operation of x, replayed by m, never lowers what an origin contributes to m's horizon. */
  lemma ReplayGrows(nodes: set<nat>, s: State, m: nat, x: nat, sender: nat, o: nat)
    requires Inv(nodes, s) && m in nodes && x in nodes && sender in nodes && sender != m && o in nodes && o != m
    requires m != x && s.seen[(m, x)] < |s.logs[x]|
    ensures var s' := Apply(nodes, s, Deliver(m, x));
            Shape(nodes, s') && HorizonTerm(Table(nodes, s, m), m, sender, o) <= HorizonTerm(Table(nodes, s', m), m, sender, o)
  {
    ReplayTable(nodes, s, m, x);
    if sender == x {
      ReplayEmitter(nodes, s, x, s.seen[(m, x)], m, o);
    }
  }

  /** An operation of m on its own rows never lowers it either. */
  lemma OwnGrows(nodes: set<nat>, s: State, m: nat, op: Op, sender: nat, o: nat)
    requires Inv(nodes, s) && m in nodes && sender in nodes && sender != m && o in nodes && OpOK(nodes, Play(s.logs[m]), op)
    ensures var s' := Append(s, m, op);
            Shape(nodes, s') && HorizonTerm(Table(nodes, s, m), m, sender, o) <= HorizonTerm(Table(nodes, s', m), m, sender, o)
  {
    var s' := Append(s, m, op);
    AppendShape(nodes, s, m, op);
    var log, log' := s.logs[m], s'.logs[m];
    LogAppend(nodes, log, op);
    PlayLatest(nodes, log', |log|, |log'|, o);
    assert log'[..|log|] == log && log'[..|log'|] == log' && log[..|log|] == log;
    var own, own' := RowsOf(Table(nodes, s, m), m), RowsOf(Table(nodes, s', m), m);
    assert own == Play(log) && own' == Play(log');
    var theirs := RowsOf(Table(nodes, s, m), sender);
    assert theirs == Copy(nodes, s, m, sender) == RowsOf(Table(nodes, s', m), sender);
    PlayOrdered(nodes, s.logs[sender], s.seen[(m, sender)]);
    TranslateGrows(theirs, o, LatestLsn(own, o), LatestLsn(own', o));
  }

  /** What n does to its own rows leaves m's table alone. */
  lemma OthersAppend(nodes: set<nat>, s: State, n: nat, op: Op, m: nat)
    requires Shape(nodes, s) && n in nodes && m in nodes && n != m
    ensures Shape(nodes, Append(s, n, op)) && Table(nodes, Append(s, n, op), m) == Table(nodes, s, m)
  {
    var s' := Append(s, n, op);
    AppendShape(nodes, s, n, op);
    forall x | x in nodes
      ensures Copy(nodes, s', m, x) == Copy(nodes, s, m, x)
    {
      assert s'.logs[x][..s.seen[(m, x)]] == s.logs[x][..s.seen[(m, x)]];
    }
  }

  /** Steps of others leave m's table alone. */
  lemma OthersKeep(nodes: set<nat>, s: State, step: Step, m: nat)
    requires Shape(nodes, s) && Enabled(nodes, s, step) && m in nodes && Actor(step) != m
    ensures Shape(nodes, Apply(nodes, s, step)) && Table(nodes, Apply(nodes, s, step), m) == Table(nodes, s, m)
  {
    match step
    case Register(n, origin, lsn, local) => OthersAppend(nodes, s, n, Insert(origin, lsn, local), m);
    case Cleanup(n) => OthersAppend(nodes, s, n, Delete(ObsoleteKeys(Table(nodes, s, n), nodes, n)), m);
    case Deliver(x, n) =>
  }

  /** The node whose table a step changes. */
  function Actor(step: Step): nat {
    match step
    case Register(n, _, _, _) => n
    case Cleanup(n) => n
    case Deliver(m, _) => m
  }

  lemma StepHorizon(nodes: set<nat>, s: State, step: Step, m: nat, sender: nat)
    requires Inv(nodes, s) && Enabled(nodes, s, step) && m in nodes && sender in nodes && sender != m
    ensures Shape(nodes, Apply(nodes, s, step))
    ensures NotBack(HorizonAt(nodes, s, m, sender), HorizonAt(nodes, Apply(nodes, s, step), m, sender))
  {
    StepInv(nodes, s, step);
    var s' := Apply(nodes, s, step);
    if Actor(step) != m {
      OthersKeep(nodes, s, step, m);
    } else {
      forall o | o in nodes && o != m
        ensures HorizonTerm(Table(nodes, s, m), m, sender, o) <= HorizonTerm(Table(nodes, s', m), m, sender, o)
      {
        match step
        case Register(n, origin, lsn, local) => OwnGrows(nodes, s, m, Insert(origin, lsn, local), sender, o);
        case Cleanup(n) =>
          CleanupOK(nodes, s, m);
          OwnGrows(nodes, s, m, Delete(ObsoleteKeys(Table(nodes, s, m), nodes, m)), sender, o);
        case Deliver(_, x) => ReplayGrows(nodes, s, m, x, sender, o);
      }
      HorizonGrows(Table(nodes, s, m), Table(nodes, s', m), nodes, m, sender);
    }
  }

  // ----- whole runs -----

  ghost predicate Next(nodes: set<nat>, s: State, s': State) {
    Shape(nodes, s) && exists step :: Enabled(nodes, s, step) && s' == Apply(nodes, s, step)
  }

  lemma NextInv(nodes: set<nat>, s: State, s': State)
    requires Inv(nodes, s) && Next(nodes, s, s')
    ensures Inv(nodes, s')
  {
    var step :| Enabled(nodes, s, step) && s' == Apply(nodes, s, step);
    StepInv(nodes, s, step);
  }

  lemma NextHorizon(nodes: set<nat>, s: State, s': State, m: nat, sender: nat)
    requires Inv(nodes, s) && Next(nodes, s, s') && m in nodes && sender in nodes && sender != m
    ensures Shape(nodes, s') && NotBack(HorizonAt(nodes, s, m, sender), HorizonAt(nodes, s', m, sender))
  {
    var step :| Enabled(nodes, s, step) && s' == Apply(nodes, s, step);
    StepHorizon(nodes, s, step, m, sender);
  }

  ghost predicate StepAt(nodes: set<nat>, run: seq<State>, i: nat)
    requires i + 1 < |run|
  {
    Next(nodes, run[i], run[i + 1])
  }

  ghost predicate Run(nodes: set<nat>, run: seq<State>) {
    && |run| > 0 && Init(nodes, run[0])
    && forall i {:trigger StepAt(nodes, run, i)} :: 0 <= i < |run| - 1 ==> StepAt(nodes, run, i)
  }

  lemma {:induction false} RunInv(nodes: set<nat>, run: seq<State>, i: nat)
    requires Run(nodes, run) && i < |run|
    ensures Inv(nodes, run[i])
  {
    if i == 0 {
      InitInv(nodes, run[0]);
    } else {
      RunInv(nodes, run, i - 1);
      assert StepAt(nodes, run, i - 1);
      NextInv(nodes, run[i - 1], run[i]);
    }
  }

  lemma {:induction false} Chain(h: seq<Option<Lsn>>, i: nat, j: nat)
    requires i <= j < |h| && forall k :: 0 < k < |h| ==> NotBack(h[k - 1], h[k])
    ensures NotBack(h[i], h[j])
  {
    if i < j {
      Chain(h, i, j - 1);
      assert NotBack(h[j - 1], h[j]);
    }
  }

  /** The horizons node m would report to sender along a run; None before the first state is reached. */
  function Horizons(nodes: set<nat>, run: seq<State>, m: nat, sender: nat): (h: seq<Option<Lsn>>)
    requires m in nodes && forall k :: 0 <= k < |run| ==> Shape(nodes, run[k])
    ensures |h| == |run| && forall k :: 0 <= k < |run| ==> h[k] == HorizonAt(nodes, run[k], m, sender)
  {
    seq(|run|, k requires 0 <= k < |run| => HorizonAt(nodes, run[k], m, sender))
  }

  lemma RunShape(nodes: set<nat>, run: seq<State>)
    requires Run(nodes, run)
    ensures forall k :: 0 <= k < |run| ==> Shape(nodes, run[k])
  {
    forall k | 0 <= k < |run|
      ensures Shape(nodes, run[k])
    {
      RunInv(nodes, run, k);
    }
  }

  lemma RunHorizon(nodes: set<nat>, run: seq<State>, k: nat, m: nat, sender: nat)
    requires Run(nodes, run) && 0 < k < |run| && m in nodes && sender in nodes && sender != m
    ensures Shape(nodes, run[k - 1]) && Shape(nodes, run[k])
    ensures NotBack(HorizonAt(nodes, run[k - 1], m, sender), HorizonAt(nodes, run[k], m, sender))
  {
    RunInv(nodes, run, k - 1);
    assert StepAt(nodes, run, k - 1);
    NextHorizon(nodes, run[k - 1], run[k], m, sender);
  }

  /** In every run, no node's horizon towards any sender ever moves back. */
  lemma HorizonNeverBack(nodes: set<nat>, run: seq<State>, i: nat, j: nat, m: nat, sender: nat)
    requires Run(nodes, run) && i <= j < |run| && m in nodes && sender in nodes && sender != m
    ensures Shape(nodes, run[i]) && Shape(nodes, run[j])
    ensures NotBack(HorizonAt(nodes, run[i], m, sender), HorizonAt(nodes, run[j], m, sender))
  {
    RunShape(nodes, run);
    var h := Horizons(nodes, run, m, sender);
    forall k | 0 < k < |h|
      ensures NotBack(h[k - 1], h[k])
    {
      RunHorizon(nodes, run, k, m, sender);
    }
    Chain(h, i, j);
  }

  /** In every run, a node's latest syncpoint of an origin is never deleted, nor replaced by an older one. */
  lemma OwnLatestKept(nodes: set<nat>, run: seq<State>, i: nat, n: nat, k: nat, o: nat)
    requires Run(nodes, run) && i < |run| && n in nodes && o in nodes
    requires n in run[i].logs && k <= |run[i].logs[n]|
    ensures LatestLsn(Play(run[i].logs[n][..k]), o) <= LatestLsn(Play(run[i].logs[n]), o)
  {
    RunInv(nodes, run, i);
    var log := run[i].logs[n];
    PlayLatest(nodes, log, k, |log|, o);
    assert log[..|log|] == log;
  }
}

/**
  The prepare barrier (src/state.c): preparers and holders exclude each other through four counters
  under a spinlock.  A step is one critical section; every interleaving of processes is a run.
 */
module PrepareBarrier {

  /** pb_acquired_in_mode of a process; a holder may still be waiting for preparers to leave. */
  datatype Mode = BackendPreparer | ApplyPreparer | BackendHolder(waiting: bool) | FullHolder(waiting: bool)

  datatype Counters = Counters(backendPreparers: int, applyPreparers: int, backendHolders: int, fullHolders: int)

  /** Processes outside the barrier are not in modes. */
  datatype State = State(c: Counters, modes: map<nat, Mode>)

  datatype Step =
    | TryPrepare(p: nat, backend: bool)
    | AnnounceHold(p: nat, full: bool)
    | CheckHold(p: nat)
    | Release(p: nat)

  /** Whether a preparer gets in. */
  predicate MayPrepare(c: Counters, backend: bool) {
    if backend then c.backendHolders == 0 && c.fullHolders == 0 else c.fullHolders == 0
  }

  /** Whether a holder has waited long enough. */
  predicate MayHold(c: Counters, full: bool) {
    c.backendPreparers == 0 && (!full || c.applyPreparers == 0)
  }

  function Left(c: Counters, m: Mode): Counters {
    match m
    case BackendPreparer => c.(backendPreparers := c.backendPreparers - 1)
    case ApplyPreparer => c.(applyPreparers := c.applyPreparers - 1)
    case BackendHolder(_) => c.(backendHolders := c.backendHolders - 1)
    case FullHolder(_) => c.(fullHolders := c.fullHolders - 1)
  }

  /** A process asks only from outside, and checks only while it waits. */
  predicate Enabled(s: State, step: Step) {
    match step
    case TryPrepare(p, _) => p !in s.modes
    case AnnounceHold(p, _) => p !in s.modes
    case CheckHold(p) => p in s.modes && (s.modes[p].BackendHolder? || s.modes[p].FullHolder?) && s.modes[p].waiting
    case Release(p) => true
  }

  function Apply(s: State, step: Step): State
    requires Enabled(s, step)
  {
    match step
    case TryPrepare(p, backend) =>
      if !MayPrepare(s.c, backend) then s
      else if backend then State(s.c.(backendPreparers := s.c.backendPreparers + 1), s.modes[p := BackendPreparer])
      else State(s.c.(applyPreparers := s.c.applyPreparers + 1), s.modes[p := ApplyPreparer])
    case AnnounceHold(p, full) =>
      if full then State(s.c.(fullHolders := s.c.fullHolders + 1), s.modes[p := FullHolder(true)])
      else State(s.c.(backendHolders := s.c.backendHolders + 1), s.modes[p := BackendHolder(true)])
    case CheckHold(p) =>
      if MayHold(s.c, s.modes[p].FullHolder?) then
        s.(modes := s.modes[p := if s.modes[p].FullHolder? then FullHolder(false) else BackendHolder(false)])
      else s
    case Release(p) =>
      if p in s.modes then State(Left(s.c, s.modes[p]), s.modes - {p}) else s
  }

  // ----- invariant -----

  datatype Kind = BackendPreparing | ApplyPreparing | BackendHolding | FullHolding

  function KindOf(m: Mode): Kind {
    match m
    case BackendPreparer => BackendPreparing
    case ApplyPreparer => ApplyPreparing
    case BackendHolder(_) => BackendHolding
    case FullHolder(_) => FullHolding
  }

  function Counter(c: Counters, k: Kind): int {
    match k
    case BackendPreparing => c.backendPreparers
    case ApplyPreparing => c.applyPreparers
    case BackendHolding => c.backendHolders
    case FullHolding => c.fullHolders
  }

  function Inside(modes: map<nat, Mode>, k: Kind): set<nat> {
    set p | p in modes && KindOf(modes[p]) == k
  }

  /** Each counter is the number of processes in its mode. */
  ghost predicate Counted(s: State) {
    forall k: Kind :: Counter(s.c, k) == |Inside(s.modes, k)|
  }

  /** While a full holder is in, no preparer is; while a backend holder is in, no backend preparer is. */
  ghost predicate Exclusive(s: State) {
    forall p, q :: p in s.modes && q in s.modes ==>
      && (s.modes[p] == FullHolder(false) ==> !s.modes[q].BackendPreparer? && !s.modes[q].ApplyPreparer?)
      && (s.modes[p] == BackendHolder(false) ==> !s.modes[q].BackendPreparer?)
  }

  ghost predicate Inv(s: State) {
    Counted(s) && Exclusive(s)
  }

  lemma Entered(modes: map<nat, Mode>, p: nat, m: Mode, k: Kind)
    requires p !in modes
    ensures |Inside(modes[p := m], k)| == |Inside(modes, k)| + if KindOf(m) == k then 1 else 0
  {
    if KindOf(m) == k {
      assert Inside(modes[p := m], k) == Inside(modes, k) + {p};
    } else {
      assert Inside(modes[p := m], k) == Inside(modes, k);
    }
  }

  lemma Departed(modes: map<nat, Mode>, p: nat, k: Kind)
    requires p in modes
    ensures |Inside(modes - {p}, k)| == |Inside(modes, k)| - if KindOf(modes[p]) == k then 1 else 0
  {
    if KindOf(modes[p]) == k {
      assert Inside(modes, k) == Inside(modes - {p}, k) + {p};
    } else {
      assert Inside(modes, k) == Inside(modes - {p}, k);
    }
  }

  lemma NobodyIn(s: State, k: Kind)
    requires Counted(s) && Counter(s.c, k) == 0
    ensures forall p :: p in s.modes ==> KindOf(s.modes[p]) != k
  {
    assert |Inside(s.modes, k)| == 0;
    forall p | p in s.modes
      ensures KindOf(s.modes[p]) != k
    {
      assert p !in Inside(s.modes, k);
    }
  }

  lemma StepCounted(s: State, step: Step)
    requires Counted(s) && Enabled(s, step)
    ensures Counted(Apply(s, step))
  {
    var s' := Apply(s, step);
    forall k: Kind
      ensures Counter(s'.c, k) == |Inside(s'.modes, k)|
    {
      assert Counter(s.c, k) == |Inside(s.modes, k)|;
      match step
      case TryPrepare(p, backend) => Entered(s.modes, p, if backend then BackendPreparer else ApplyPreparer, k);
      case AnnounceHold(p, full) => Entered(s.modes, p, if full then FullHolder(true) else BackendHolder(true), k);
      case CheckHold(p) => assert Inside(s'.modes, k) == Inside(s.modes, k);
      case Release(p) =>
        if p in s.modes {
          Departed(s.modes, p, k);
        }
    }
  }

  lemma StepInv(s: State, step: Step)
    requires Inv(s) && Enabled(s, step)
    ensures Inv(Apply(s, step))
  {
    StepCounted(s, step);
    match step
    case TryPrepare(p, backend) =>
      if MayPrepare(s.c, backend) {
        NobodyIn(s, FullHolding);
        if backend {
          NobodyIn(s, BackendHolding);
        }
      }
    case AnnounceHold(p, full) =>
    case CheckHold(p) =>
      var full := s.modes[p].FullHolder?;
      if MayHold(s.c, full) {
        NobodyIn(s, BackendPreparing);
        if full {
          NobodyIn(s, ApplyPreparing);
        }
      }
    case Release(p) =>
  }

  // ----- whole runs -----

  ghost predicate StepAt(run: seq<State>, i: nat)
    requires i + 1 < |run|
  {
    exists step :: Enabled(run[i], step) && run[i + 1] == Apply(run[i], step)
  }

  ghost predicate Run(run: seq<State>) {
    && |run| > 0 && run[0] == State(Counters(0, 0, 0, 0), map[])
    && forall i {:trigger StepAt(run, i)} :: 0 <= i < |run| - 1 ==> StepAt(run, i)
  }

  lemma {:induction false} RunInv(run: seq<State>, i: nat)
    requires Run(run) && i < |run|
    ensures Inv(run[i])
  {
    if i > 0 {
      RunInv(run, i - 1);
      assert StepAt(run, i - 1);
      var step :| Enabled(run[i - 1], step) && run[i] == Apply(run[i - 1], step);
      StepInv(run[i - 1], step);
    }
  }

  /** In every interleaving, from the time a full holder is let in until it releases, no preparer is in. */
  lemma FullHolderExcludes(run: seq<State>, i: nat, p: nat, q: nat)
    requires Run(run) && i < |run| && p in run[i].modes && q in run[i].modes && run[i].modes[p] == FullHolder(false)
    ensures run[i].modes[q].BackendHolder? || run[i].modes[q].FullHolder?
  {
    RunInv(run, i);
  }

  /** A backend holder excludes backend preparers, and no apply preparer. */
  lemma BackendHolderExcludes(run: seq<State>, i: nat, p: nat)
    requires Run(run) && i < |run| && p in run[i].modes && run[i].modes[p] == BackendHolder(false)
    ensures forall q :: q in run[i].modes ==> !run[i].modes[q].BackendPreparer?
    ensures !MayPrepare(run[i].c, true)
    ensures MayPrepare(run[i].c, false) <==> forall q :: q in run[i].modes ==> !run[i].modes[q].FullHolder?
  {
    RunInv(run, i);
    var s := run[i];
    assert Counter(s.c, BackendHolding) == |Inside(s.modes, BackendHolding)| && p in Inside(s.modes, BackendHolding);
    assert Counter(s.c, FullHolding) == |Inside(s.modes, FullHolding)|;
    if MayPrepare(s.c, false) {
      NobodyIn(s, FullHolding);
    } else {
      var q :| q in Inside(s.modes, FullHolding);
    }
  }

  // ----- from the announcement on -----

  predicate IsPreparer(m: Mode) {
    m.BackendPreparer? || m.ApplyPreparer?
  }

  /** Whether a process outside gets in as a preparer. */
  predicate GetsIn(s: State, q: nat, backend: bool)
    requires q !in s.modes
  {
    q in Apply(s, TryPrepare(q, backend)).modes
  }

  /** What a preparer becomes that gets in. */
  lemma GetsInAs(s: State, q: nat, backend: bool)
    requires q !in s.modes && GetsIn(s, q, backend)
    ensures Apply(s, TryPrepare(q, backend)).modes == s.modes[q := if backend then BackendPreparer else ApplyPreparer]
  {
  }

  /** An announced holder keeps backend preparers out; a full one keeps all preparers out, the other one no apply preparer that would have got in. */
  lemma AnnounceExcludes(s: State, p: nat, full: bool, q: nat)
    requires Counted(s) && p !in s.modes && q !in s.modes && q != p
    ensures var s' := Apply(s, AnnounceHold(p, full));
            && s'.modes == s.modes[p := if full then FullHolder(true) else BackendHolder(true)]
            && !GetsIn(s', q, true)
            && (full ==> !GetsIn(s', q, false))
            && (!full ==> (GetsIn(s', q, false) <==> GetsIn(s, q, false)))
  {
    var s' := Apply(s, AnnounceHold(p, full));
    StepCounted(s, AnnounceHold(p, full));
    assert Counter(s'.c, BackendHolding) == |Inside(s'.modes, BackendHolding)| && Counter(s'.c, FullHolding) == |Inside(s'.modes, FullHolding)|;
    if full {
      assert p in Inside(s'.modes, FullHolding);
    } else {
      assert p in Inside(s'.modes, BackendHolding);
    }
  }

  /** While a full holder is in or waits, a step lets no preparer in. */
  lemma NobodyEnters(s: State, step: Step, p: nat, q: nat)
    requires Counted(s) && Enabled(s, step) && p in s.modes && s.modes[p].FullHolder?
    requires q in Apply(s, step).modes && IsPreparer(Apply(s, step).modes[q])
    ensures q in s.modes && s.modes[q] == Apply(s, step).modes[q]
  {
    assert Counter(s.c, FullHolding) == |Inside(s.modes, FullHolding)| && p in Inside(s.modes, FullHolding);
  }

  /** A holder stays one until it releases. */
  lemma HolderStays(s: State, step: Step, p: nat)
    requires Enabled(s, step) && p in s.modes && s.modes[p].FullHolder? && p in Apply(s, step).modes
    ensures Apply(s, step).modes[p].FullHolder?
  {
  }

  /**
    In every interleaving, from the announcement of a full hold to its release nobody enters as a preparer:
    whoever is a preparer in between was one, in the same mode, when the hold was announced.
   */
  lemma {:induction false} NoPreparerEnters(run: seq<State>, i: nat, j: nat, p: nat, q: nat)
    requires Run(run) && i < j < |run| && p !in run[i].modes && run[i + 1] == Apply(run[i], AnnounceHold(p, true))
    requires forall k {:trigger run[k]} :: i < k <= j ==> p in run[k].modes
    requires q in run[j].modes && IsPreparer(run[j].modes[q])
    ensures run[j].modes[p].FullHolder? && q in run[i].modes && run[i].modes[q] == run[j].modes[q]
    decreases j
  {
    AnnouncedStays(run, i, j, p);
    RunInv(run, j - 1);
    if j > i + 1 {
      assert StepAt(run, j - 1);
      var step :| Enabled(run[j - 1], step) && run[j] == Apply(run[j - 1], step);
      AnnouncedStays(run, i, j - 1, p);
      NobodyEnters(run[j - 1], step, p, q);
      NoPreparerEnters(run, i, j - 1, p, q);
    }
  }

  lemma {:induction false} AnnouncedStays(run: seq<State>, i: nat, j: nat, p: nat)
    requires Run(run) && i < j < |run| && p !in run[i].modes && run[i + 1] == Apply(run[i], AnnounceHold(p, true))
    requires forall k {:trigger run[k]} :: i < k <= j ==> p in run[k].modes
    ensures run[j].modes[p].FullHolder?
    decreases j
  {
    if j > i + 1 {
      AnnouncedStays(run, i, j - 1, p);
      assert StepAt(run, j - 1);
      var step :| Enabled(run[j - 1], step) && run[j] == Apply(run[j - 1], step);
      HolderStays(run[j - 1], step, p);
    }
  }

  /** A waiting holder is let in exactly when the preparers that it excludes have left. */
  lemma HoldsIff(s: State, p: nat)
    requires Counted(s) && Enabled(s, CheckHold(p))
    ensures !(Apply(s, CheckHold(p)).modes[p].waiting) <==>
              forall q :: q in s.modes ==> !s.modes[q].BackendPreparer? && (s.modes[p].FullHolder? ==> !s.modes[q].ApplyPreparer?)
    ensures Apply(s, CheckHold(p)).c == s.c && Apply(s, CheckHold(p)).modes[p].FullHolder? == s.modes[p].FullHolder?
  {
    WhoPrepares(s);
  }

  /** Preparer counters tell whether there is a preparer. */
  lemma WhoPrepares(s: State)
    requires Counted(s)
    ensures s.c.backendPreparers == 0 <==> forall q :: q in s.modes ==> !s.modes[q].BackendPreparer?
    ensures s.c.applyPreparers == 0 <==> forall q :: q in s.modes ==> !s.modes[q].ApplyPreparer?
  {
    assert Counter(s.c, BackendPreparing) == |Inside(s.modes, BackendPreparing)|;
    assert Counter(s.c, ApplyPreparing) == |Inside(s.modes, ApplyPreparing)|;
    if s.c.backendPreparers == 0 {
      NobodyIn(s, BackendPreparing);
    } else {
      var q :| q in Inside(s.modes, BackendPreparing);
    }
    if s.c.applyPreparers == 0 {
      NobodyIn(s, ApplyPreparing);
    } else {
      var q :| q in Inside(s.modes, ApplyPreparing);
    }
  }

  // ----- in place -----

  class Barrier {
    var nBackendPreparers: int
    var nApplyPreparers: int
    var nBackendHolders: int
    var nFullHolders: int
    /** pb_acquired_in_mode of every process inside. */
    ghost var modes: map<nat, Mode>

    ghost function Value(): State
      reads this
    {
      State(Counters(nBackendPreparers, nApplyPreparers, nBackendHolders, nFullHolders), modes)
    }

    constructor ()
      ensures Value() == State(Counters(0, 0, 0, 0), map[]) && Inv(Value())
    {
      nBackendPreparers, nApplyPreparers, nBackendHolders, nFullHolders := 0, 0, 0, 0;
      modes := map[];
      new;
      assert forall k :: Inside(modes, k) == {};
    }

    /** One attempt of AcquirePBByPreparer. */
    method TryAcquireByPreparer(ghost p: nat, backend: bool) returns (acquired: bool)
      requires Inv(Value()) && p !in modes
      modifies this
      ensures Inv(Value()) && Value() == Apply(old(Value()), TryPrepare(p, backend))
      ensures acquired <==> p in modes
      ensures acquired ==> modes == old(modes)[p := if backend then BackendPreparer else ApplyPreparer]
      ensures !acquired ==> modes == old(modes)
      ensures acquired <==> forall q :: q in old(modes) ==> !old(modes)[q].FullHolder? && (backend ==> !old(modes)[q].BackendHolder?)
    {
      StepInv(Value(), TryPrepare(p, backend));
      WhoHolds(Value());
      acquired := false;
      if backend {
        if nBackendHolders == 0 && nFullHolders == 0 {
          nBackendPreparers := nBackendPreparers + 1;
          modes := modes[p := BackendPreparer];
          acquired := true;
        }
      } else {
        if nFullHolders == 0 {
          nApplyPreparers := nApplyPreparers + 1;
          modes := modes[p := ApplyPreparer];
          acquired := true;
        }
      }
    }

    /** AcquirePBByHolder, first part: from now on no new preparer gets in. */
    method Announce(ghost p: nat, full: bool)
      requires Inv(Value()) && p !in modes
      modifies this
      ensures Inv(Value()) && Value() == Apply(old(Value()), AnnounceHold(p, full))
      ensures modes == old(modes)[p := if full then FullHolder(true) else BackendHolder(true)]
      ensures nFullHolders == old(nFullHolders) + (if full then 1 else 0) && nBackendHolders == old(nBackendHolders) + (if full then 0 else 1)
    {
      StepInv(Value(), AnnounceHold(p, full));
      if full {
        nFullHolders := nFullHolders + 1;
        modes := modes[p := FullHolder(true)];
      } else {
        nBackendHolders := nBackendHolders + 1;
        modes := modes[p := BackendHolder(true)];
      }
    }

    /** AcquirePBByHolder, one turn of the waiting loop. */
    method CheckDone(ghost p: nat, full: bool) returns (done: bool)
      requires Inv(Value()) && p in modes && modes[p] == if full then FullHolder(true) else BackendHolder(true)
      modifies this`modes
      ensures Inv(Value()) && Value() == Apply(old(Value()), CheckHold(p))
      ensures done <==> forall q :: q in old(modes) ==> !old(modes)[q].BackendPreparer? && (full ==> !old(modes)[q].ApplyPreparer?)
      ensures modes == if done then old(modes)[p := if full then FullHolder(false) else BackendHolder(false)] else old(modes)
    {
      WhoPrepares(Value());
      StepInv(Value(), CheckHold(p));
      done := nBackendPreparers == 0 && (!full || nApplyPreparers == 0);
      if done {
        modes := modes[p := if full then FullHolder(false) else BackendHolder(false)];
      }
    }

    /** ReleasePB; mode is the caller's pb_acquired_in_mode. */
    method Leave(ghost p: nat, mode: Mode)
      requires Inv(Value()) && p in modes && modes[p] == mode
      modifies this
      ensures Inv(Value()) && Value() == Apply(old(Value()), Release(p)) && modes == old(modes) - {p}
    {
      StepInv(Value(), Release(p));
      match mode {
        case ApplyPreparer => nApplyPreparers := nApplyPreparers - 1;
        case BackendPreparer => nBackendPreparers := nBackendPreparers - 1;
        case BackendHolder(_) => nBackendHolders := nBackendHolders - 1;
        case FullHolder(_) => nFullHolders := nFullHolders - 1;
      }
      modes := modes - {p};
    }
  }

  /** Holder counters tell whether there is a holder. */
  lemma WhoHolds(s: State)
    requires Counted(s)
    ensures s.c.fullHolders == 0 <==> forall q :: q in s.modes ==> !s.modes[q].FullHolder?
    ensures s.c.backendHolders == 0 <==> forall q :: q in s.modes ==> !s.modes[q].BackendHolder?
  {
    assert Counter(s.c, FullHolding) == |Inside(s.modes, FullHolding)|;
    assert Counter(s.c, BackendHolding) == |Inside(s.modes, BackendHolding)|;
    if s.c.fullHolders == 0 {
      NobodyIn(s, FullHolding);
    } else {
      var q :| q in Inside(s.modes, FullHolding);
    }
    if s.c.backendHolders == 0 {
      NobodyIn(s, BackendHolding);
    } else {
      var q :| q in Inside(s.modes, BackendHolding);
    }
  }
}

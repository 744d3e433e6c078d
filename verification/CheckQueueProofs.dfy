/** Safety over every interleaving, and that Wait cannot hang. */
module CheckQueueProofs {
  import opened CheckQueue

  ghost predicate AllOk(v: seq<Check>) {
    forall i :: 0 <= i < |v| ==> v[i].ok
  }

  // ---- sums over the threads

  ghost function Sum(f: Thread -> nat, ts: seq<Thread>): nat {
    if ts == [] then 0 else Sum(f, ts[..|ts| - 1]) + f(ts[|ts| - 1])
  }

  lemma {:induction false} SumSet(f: Thread -> nat, ts: seq<Thread>, i: nat, t: Thread)
    requires i < |ts|
    ensures Sum(f, ts[i := t]) == Sum(f, ts) - f(ts[i]) + f(t)
    ensures Sum(f, ts) >= f(ts[i])
  {
    var n := |ts| - 1;
    if i == n {
      assert ts[i := t][..n] == ts[..n];
    } else {
      SumSet(f, ts[..n], i, t);
      assert ts[i := t][..n] == ts[..n][i := t];
    }
  }

  lemma {:induction false} SumSame(f: Thread -> nat, ts: seq<Thread>, us: seq<Thread>)
    requires |ts| == |us| && forall i :: 0 <= i < |ts| ==> f(us[i]) == f(ts[i])
    ensures Sum(f, us) == Sum(f, ts)
  {
    if ts != [] { SumSame(f, ts[..|ts| - 1], us[..|ts| - 1]); }
  }

  ghost function Total(f: Thread -> nat, s: State): nat {
    f(s.master) + Sum(f, s.workers)
  }

  lemma TotalSet(f: Thread -> nat, s: State, w: Who, t: Thread)
    requires Exists(s, w)
    ensures Total(f, Set(s, w, t)) == Total(f, s) - f(Get(s, w)) + f(t)
    ensures Total(f, s) >= f(Get(s, w))
  {
    if w.Worker? { SumSet(f, s.workers, w.i, t); }
  }

  /** Checks a thread has taken and not yet booked. */
  function Held(t: Thread): nat {
    match t
    case Entering(n, _) => n
    case Working(batch, _, _) => |batch|
    case _ => 0
  }

  function Idle(t: Thread): nat { if t.Parked? then 1 else 0 }

  function Pooled(t: Thread): nat {
    match t
    case Outside => 0
    case Entering(n, _) => if n == 0 then 0 else 1
    case _ => 1
  }

  /** Nothing a thread holds has failed or will fail. */
  ghost predicate Clean(t: Thread) {
    match t
    case Entering(n, fOk) => n == 0 || fOk
    case Working(batch, done, fOk) => fOk && (forall i :: done <= i < |batch| ==> batch[i].ok)
    case _ => true
  }

  ghost predicate Formed(t: Thread) {
    t.Working? ==> 1 <= |t.batch| && t.done <= |t.batch|
  }

  ghost predicate AllClean(s: State) {
    Clean(s.master) && forall i :: 0 <= i < |s.workers| ==> Clean(s.workers[i])
  }

  ghost predicate AllFormed(s: State) {
    Formed(s.master) && forall i :: 0 <= i < |s.workers| ==> Formed(s.workers[i]) && !s.workers[i].Outside?
  }

  /** nTodo counts the queued checks and those in unfinished batches, and the pool counters are exact. */
  ghost predicate Counted(s: State) {
    && s.nTodo == |s.queue| + Total(Held, s)
    && s.nIdle == Total(Idle, s)
    && s.nTotal == Total(Pooled, s)
  }

  /** The result that will come out is the conjunction of this round's checks. */
  ghost predicate Truthful(s: State) {
    (s.fAllOk && AllOk(s.queue) && AllClean(s)) == AllOk(s.added)
  }

  /** A parked master finds no work, and unless notified there is unfinished work elsewhere. */
  ghost predicate MasterAwaited(s: State) {
    s.master.Parked? ==> s.queue == [] && (s.master.notified || s.nTodo > 0)
  }

  ghost predicate Kept(s: State) {
    forall i :: 0 <= i < |s.rounds| ==> s.rounds[i].result == AllOk(s.rounds[i].checks)
  }

  ghost predicate Inv(s: State) {
    AllFormed(s) && Counted(s) && Truthful(s) && MasterAwaited(s) && Kept(s)
  }

  /** The state with the thread taken out of all sums, between booking and proceeding. */
  ghost predicate Between(s: State, w: Who) {
    && Exists(s, w) && AllFormed(s) && Held(Get(s, w)) == 0 && Clean(Get(s, w))
    && s.nTodo == |s.queue| + Total(Held, s)
    && s.nIdle == Total(Idle, s) - Idle(Get(s, w))
    && s.nTotal == Total(Pooled, s) - Pooled(Get(s, w)) + 1
    && Truthful(s) && Kept(s) && (w.Worker? ==> MasterAwaited(s))
    && (w.Worker? ==> !Get(s, w).Outside?)
  }

  ghost predicate CleanBut(s: State, w: Who) {
    && (w.Master? || Clean(s.master))
    && forall i :: 0 <= i < |s.workers| && w != Worker(i) ==> Clean(s.workers[i])
  }

  lemma CleanSet(s: State, w: Who, t: Thread)
    requires Exists(s, w)
    ensures AllClean(s) <==> Clean(Get(s, w)) && CleanBut(s, w)
    ensures AllClean(Set(s, w, t)) <==> Clean(t) && CleanBut(s, w)
  {
    var u := Set(s, w, t);
    if AllClean(u) {
      assert w.Worker? ==> u.workers[w.i] == t;
      forall i | 0 <= i < |s.workers| && w != Worker(i) ensures Clean(s.workers[i]) {
        assert u.workers[i] == s.workers[i];
      }
    }
  }

  lemma FormedSet(s: State, w: Who, t: Thread)
    requires AllFormed(s) && Exists(s, w) && Formed(t) && (t.Outside? ==> w.Master?)
    ensures AllFormed(Set(s, w, t))
  {}

  lemma TotalsSet(s: State, w: Who, t: Thread)
    requires Exists(s, w)
    ensures Total(Held, Set(s, w, t)) == Total(Held, s) - Held(Get(s, w)) + Held(t)
    ensures Total(Idle, Set(s, w, t)) == Total(Idle, s) - Idle(Get(s, w)) + Idle(t)
    ensures Total(Pooled, Set(s, w, t)) == Total(Pooled, s) - Pooled(Get(s, w)) + Pooled(t)
    ensures Total(Held, s) >= Held(Get(s, w)) && Total(Idle, s) >= Idle(Get(s, w)) &&
              Total(Pooled, s) >= Pooled(Get(s, w))
  {
    TotalSet(Held, s, w, t);
    TotalSet(Idle, s, w, t);
    TotalSet(Pooled, s, w, t);
  }

  /** Sums look at the threads only. */
  lemma SumsOfThreads(s: State, u: State)
    requires s.workers == u.workers && Held(s.master) == Held(u.master) && Idle(s.master) == Idle(u.master)
    requires Pooled(s.master) == Pooled(u.master)
    ensures Total(Held, s) == Total(Held, u) && Total(Idle, s) == Total(Idle, u) && Total(Pooled, s) == Total(Pooled, u)
  {}

  lemma BookedCounts(s: State, w: Who)
    requires Inv(s) && Exists(s, w) && Get(s, w).Entering?
    ensures var u := Set(Book(s, w), w, Entering(0, true));
            && u.nTodo == |u.queue| + Total(Held, u)
            && u.nIdle == Total(Idle, u) - Idle(Get(u, w))
            && u.nTotal == Total(Pooled, u) - Pooled(Get(u, w)) + 1
  {
    hide Total, Truthful;
    SumsOfThreads(s, Book(s, w));
    TotalsSet(Book(s, w), w, Entering(0, true));
  }

  lemma Booked(s: State, w: Who)
    requires Inv(s) && Exists(s, w) && Get(s, w).Entering?
    ensures Between(Set(Book(s, w), w, Entering(0, true)), w)
  {
    hide Total, AllClean, AllOk;
    BookedCounts(s, w);
    CleanSet(s, w, Entering(0, true));
    CleanSet(Book(s, w), w, Entering(0, true));
    FormedSet(Book(s, w), w, Entering(0, true));
    assert CleanBut(Book(s, w), w) == CleanBut(s, w);
  }

  lemma ProceedCounts(nBatchSize: nat, s: State, w: Who)
    requires Between(s, w)
    ensures s.nTotal >= 0 && s.nIdle >= 0 && Counted(Proceed(nBatchSize, s, w))
  {
    hide Truthful, MasterAwaited;
    if s.queue == [] && w.Master? && s.nTodo == 0 {
      TotalsSet(s, w, Outside);
      SumsOfThreads(Set(s, w, Outside), Proceed(nBatchSize, s, w));
    } else if s.queue == [] {
      TotalsSet(s, w, Parked(false));
      SumsOfThreads(Set(s, w, Parked(false)), Proceed(nBatchSize, s, w));
    } else {
      TotalsSet(s, w, Parked(false));
      var rest := |s.queue| - BatchSize(nBatchSize, s);
      var t := Working(Reversed(s.queue[rest..]), 0, s.fAllOk);
      TotalsSet(s, w, t);
      SumsOfThreads(Set(s, w, t), Proceed(nBatchSize, s, w));
    }
  }

  /** With nothing queued and nothing held, nothing can still fail. */
  lemma NothingHeldIsClean(s: State)
    requires Total(Held, s) == 0 && AllFormed(s)
    ensures AllClean(s)
  {
    forall i | 0 <= i < |s.workers| ensures Clean(s.workers[i]) {
      SumSet(Held, s.workers, i, Outside);
    }
  }

  lemma BatchIsClean(queue: seq<Check>, rest: nat, fOk: bool)
    requires rest <= |queue|
    ensures Clean(Working(Reversed(queue[rest..]), 0, fOk)) <==> fOk && AllOk(queue[rest..])
    ensures AllOk(queue) <==> AllOk(queue[..rest]) && AllOk(queue[rest..])
  {
    var v := queue[rest..];
    if forall i :: 0 <= i < |v| ==> Reversed(v)[i].ok {
      forall i | 0 <= i < |v| ensures v[i].ok { assert Reversed(v)[|v| - 1 - i] == v[i]; }
    }
    if AllOk(queue[..rest]) && AllOk(v) {
      forall i | 0 <= i < |queue| ensures queue[i].ok {
        assert i >= rest ==> queue[i] == v[i - rest];
        assert i < rest ==> queue[i] == queue[..rest][i];
      }
    }
    if AllOk(queue) {
      forall i | 0 <= i < |v| ensures v[i].ok { assert v[i] == queue[rest + i]; }
    }
  }

  lemma ProceedTruthful(nBatchSize: nat, s: State, w: Who)
    requires Between(s, w)
    ensures s.nTotal >= 0 && s.nIdle >= 0
    ensures Truthful(Proceed(nBatchSize, s, w)) && Kept(Proceed(nBatchSize, s, w))
  {
    hide Total, AllClean, AllOk, Clean;
    ProceedCounts(nBatchSize, s, w);
    var u := Proceed(nBatchSize, s, w);
    if s.queue == [] && w.Master? && s.nTodo == 0 {
      NothingHeldIsClean(s);
      CleanSet(s, w, Outside);
      assert AllOk([]) && Clean(Outside) by { TrivialTruths(); }
      assert AllClean(u) == AllClean(Set(s, w, Outside)) by { SameThreads(u, Set(s, w, Outside)); }
    } else if s.queue == [] {
      CleanSet(s, w, Parked(false));
      assert Clean(Parked(false)) by { TrivialTruths(); }
      SameThreads(u, Set(s, w, Parked(false)));
    } else {
      var rest := |s.queue| - BatchSize(nBatchSize, s);
      var t := Working(Reversed(s.queue[rest..]), 0, s.fAllOk);
      CleanSet(s, w, t);
      BatchIsClean(s.queue, rest, s.fAllOk);
      SameThreads(u, Set(s, w, t));
    }
  }

  lemma TrivialTruths()
    ensures AllOk([]) && Clean(Outside) && Clean(Parked(false))
  {}

  lemma SameThreads(s: State, u: State)
    requires s.master == u.master && s.workers == u.workers
    ensures AllClean(s) == AllClean(u)
  {}

  lemma Proceeded(nBatchSize: nat, s: State, w: Who)
    requires Between(s, w)
    ensures s.nTotal >= 0 && s.nIdle >= 0 && Inv(Proceed(nBatchSize, s, w))
  {
    ProceedCounts(nBatchSize, s, w);
    ProceedTruthful(nBatchSize, s, w);
    hide Truthful, AllClean, AllOk, Kept;
    if s.queue == [] {
      FormedSet(s, w, if w.Master? && s.nTodo == 0 then Outside else Parked(false));
    } else {
      var rest := |s.queue| - BatchSize(nBatchSize, s);
      FormedSet(s, w, Working(Reversed(s.queue[rest..]), 0, s.fAllOk));
    }
  }

  lemma SetTwice(s: State, w: Who, t: Thread, x: Thread)
    requires Exists(s, w)
    ensures Set(Set(s, w, t), w, x) == Set(s, w, x)
  {
    if w.Worker? { assert s.workers[w.i := t][w.i := x] == s.workers[w.i := x]; }
  }

  /** What Proceed does, it does whatever the thread was doing before. */
  lemma ProceedForgets(nBatchSize: nat, s: State, w: Who, t: Thread)
    requires Exists(s, w) && s.nTotal + s.nIdle >= 0
    ensures Proceed(nBatchSize, Set(s, w, t), w) == Proceed(nBatchSize, s, w)
  {
    if s.queue == [] {
      SetTwice(s, w, t, Parked(false));
      SetTwice(s, w, t, Outside);
    } else {
      var rest := |s.queue| - BatchSize(nBatchSize, s);
      SetTwice(s, w, t, Working(Reversed(s.queue[rest..]), 0, s.fAllOk));
    }
  }

  lemma Locked(nBatchSize: nat, s: State, w: Who)
    requires Inv(s) && Enabled(s, Lock(w))
    ensures Counts(s) && Inv(Next(nBatchSize, s, Lock(w)))
  {
    hide Inv, Proceed;
    Booked(s, w);
    var u := Set(Book(s, w), w, Entering(0, true));
    Proceeded(nBatchSize, u, w);
    ProceedForgets(nBatchSize, Book(s, w), w, Entering(0, true));
    InvCounts(s);
  }

  lemma InvCounts(s: State)
    requires Inv(s)
    ensures Counts(s)
  {}

  lemma Woken(nBatchSize: nat, s: State, w: Who)
    requires Inv(s) && Enabled(s, Wake(w))
    ensures Counts(s) && s.nIdle > 0 && Inv(Next(nBatchSize, s, Wake(w)))
  {
    hide Proceed;
    TotalsSet(s, w, Outside);
    var u := s.(nIdle := s.nIdle - 1);
    SumsOfThreads(s, u);
    SameThreads(s, u);
    Proceeded(nBatchSize, u, w);
  }

  lemma Roused(s: State, checks: seq<Check>, lucky: nat)
    ensures var u := s.(workers := Rouse(s.workers, |checks|, lucky));
            && Total(Held, u) == Total(Held, s) && Total(Idle, u) == Total(Idle, s) &&
                 Total(Pooled, u) == Total(Pooled, s)
            && AllClean(u) == AllClean(s) && (AllFormed(s) ==> AllFormed(u))
  {
    var us := Rouse(s.workers, |checks|, lucky);
    SumSame(Held, s.workers, us);
    SumSame(Idle, s.workers, us);
    SumSame(Pooled, s.workers, us);
    forall i | 0 <= i < |us| ensures Clean(us[i]) == Clean(s.workers[i]) {}
  }

  lemma AllOkOfBoth(a: seq<Check>, b: seq<Check>)
    ensures AllOk(a + b) <==> AllOk(a) && AllOk(b)
  {
    var v := a + b;
    BatchIsClean(v, |a|, true);
    assert v[..|a|] == a && v[|a|..] == b;
  }

  lemma AddedChecks(nBatchSize: nat, s: State, checks: seq<Check>, lucky: nat)
    requires Inv(s) && Enabled(s, Add(checks, lucky))
    ensures Counts(s) && Inv(Next(nBatchSize, s, Add(checks, lucky)))
  {
    hide Total, AllClean, AllOk, Rouse;
    var u := Next(nBatchSize, s, Add(checks, lucky));
    var v := s.(workers := Rouse(s.workers, |checks|, lucky));
    Roused(s, checks, lucky);
    SumsOfThreads(u, v);
    SameThreads(u, v);
    AllOkOfBoth(s.queue, checks);
    AllOkOfBoth(s.added, checks);
  }

  lemma CalledWait(nBatchSize: nat, s: State)
    requires Inv(s) && Enabled(s, CallWait)
    ensures Counts(s) && Inv(Next(nBatchSize, s, CallWait))
  {}

  lemma WorkedOn(nBatchSize: nat, s: State, w: Who)
    requires Inv(s) && Enabled(s, Work(w))
    ensures Counts(s) && Inv(Next(nBatchSize, s, Work(w)))
  {
    hide Total, AllClean, AllOk;
    var t := Worked(Get(s, w));
    WorkedKeeps(Get(s, w));
    TotalsSet(s, w, t);
    CleanSet(s, w, t);
    FormedSet(s, w, t);
  }

  lemma WorkedKeeps(t: Thread)
    requires t.Working? && Formed(t)
    ensures Clean(Worked(t)) == Clean(t) && Formed(Worked(t)) && !Worked(t).Parked? && !Worked(t).Outside?
    ensures Held(Worked(t)) == Held(t) && Idle(Worked(t)) == Idle(t) && Pooled(Worked(t)) == Pooled(t)
  {}

  ghost predicate Ready(s: State, step: Step) {
    Enabled(s, step) && Counts(s) && (step.Wake? ==> s.nIdle > 0)
  }

  /** Every step keeps the invariant, and never lets a counter go below zero. */
  lemma StepKeepsInv(nBatchSize: nat, s: State, step: Step)
    requires Inv(s) && Enabled(s, step)
    ensures Ready(s, step) && Inv(Next(nBatchSize, s, step))
  {
    hide Inv, Next;
    match step
    case Add(checks, lucky) => AddedChecks(nBatchSize, s, checks, lucky);
    case CallWait => CalledWait(nBatchSize, s);
    case Lock(w) => Locked(nBatchSize, s, w);
    case Wake(w) => Woken(nBatchSize, s, w);
    case Work(w) => WorkedOn(nBatchSize, s, w);
  }

  /** A run: any enabled step at each point, in any order the scheduler likes. */
  ghost predicate Run(nBatchSize: nat, ss: seq<State>, steps: seq<Step>) {
    && |ss| == |steps| + 1
    && forall i :: 0 <= i < |steps| ==>
         Enabled(ss[i], steps[i]) && (Ready(ss[i], steps[i]) ==> ss[i + 1] == Next(nBatchSize, ss[i], steps[i]))
  }

  lemma InitialInv(n: nat)
    ensures Inv(Initial(n))
  {
    var s := Initial(n);
    NothingYet(Held, s.workers);
    NothingYet(Idle, s.workers);
    NothingYet(Pooled, s.workers);
  }

  lemma {:induction false} NothingYet(f: Thread -> nat, ts: seq<Thread>)
    requires f(Entering(0, true)) == 0
    requires forall i :: 0 <= i < |ts| ==> ts[i] == Entering(0, true)
    ensures Sum(f, ts) == 0
  {
    if ts != [] { NothingYet(f, ts[..|ts| - 1]); }
  }

  lemma {:induction false} EveryRunKeepsInv(nBatchSize: nat, ss: seq<State>, steps: seq<Step>, k: nat)
    requires Run(nBatchSize, ss, steps) && Inv(ss[0]) && k < |ss|
    ensures Inv(ss[k]) && (k < |steps| ==> Ready(ss[k], steps[k]))
  {
    hide Inv, Next;
    if k > 0 {
      EveryRunKeepsInv(nBatchSize, ss, steps, k - 1);
      StepKeepsInv(nBatchSize, ss[k - 1], steps[k - 1]);
    }
    if k < |steps| { StepKeepsInv(nBatchSize, ss[k], steps[k]); }
  }

  /** In every interleaving of one master and n workers, at every point: the counters are exact and
      non-negative, and each Wait so far returned exactly the conjunction of the checks added since the
      Wait before it. */
  lemma EveryInterleaving(nBatchSize: nat, n: nat, ss: seq<State>, steps: seq<Step>, k: nat)
    requires Run(nBatchSize, ss, steps) && ss[0] == Initial(n) && k < |ss|
    ensures Counts(ss[k]) && Counted(ss[k]) && Kept(ss[k])
    ensures ss[k].master.Parked? && !ss[k].master.notified ==>
              exists i :: 0 <= i < |ss[k].workers| && Held(ss[k].workers[i]) > 0
  {
    InitialInv(n);
    EveryRunKeepsInv(nBatchSize, ss, steps, k);
    InvCounts(ss[k]);
    if ss[k].master.Parked? && !ss[k].master.notified { SomeoneHolds(ss[k]); }
  }

  lemma {:induction false} SomeHeld(ts: seq<Thread>)
    requires Sum(Held, ts) > 0
    ensures exists i :: 0 <= i < |ts| && Held(ts[i]) > 0
  {
    var n := |ts| - 1;
    if Held(ts[n]) == 0 {
      SomeHeld(ts[..n]);
      var i :| 0 <= i < n && Held(ts[..n][i]) > 0;
      assert Held(ts[i]) > 0;
    }
  }

  /** No wake-up is lost: while the master sleeps un-notified a worker has a batch to finish. */
  lemma SomeoneHolds(s: State)
    requires Inv(s) && s.master == Parked(false)
    ensures exists i :: 0 <= i < |s.workers| && Held(s.workers[i]) > 0
  {
    SomeHeld(s.workers);
  }

  // ---- the rounds partition the checks that were added

  ghost function Asked(steps: seq<Step>): seq<Check> {
    if steps == [] then [] else
      var step := steps[|steps| - 1];
      Asked(steps[..|steps| - 1]) + if step.Add? then step.checks else []
  }

  ghost function Answered(rounds: seq<Round>): seq<Check> {
    if rounds == [] then [] else Answered(rounds[..|rounds| - 1]) + rounds[|rounds| - 1].checks
  }

  ghost predicate Continues(s: State, u: State) {
    if u.rounds == s.rounds then u.added == s.added
    else u.added == [] && u.rounds == s.rounds + [Round(s.added, s.fAllOk)]
  }

  lemma ProceedContinues(nBatchSize: nat, s: State, w: Who)
    requires Exists(s, w) && s.nTotal + s.nIdle >= 0
    ensures Continues(s, Proceed(nBatchSize, s, w))
  {
    hide Reversed, BatchSize;
  }

  lemma StepAnswers(nBatchSize: nat, s: State, step: Step)
    requires Ready(s, step)
    ensures var u := Next(nBatchSize, s, step);
            Answered(u.rounds) + u.added == Answered(s.rounds) + s.added + if step.Add? then step.checks else []
  {
    hide Proceed, Rouse, Continues;
    match step
    case Add(checks, _) =>
      assert Answered(s.rounds) + (s.added + checks) == Answered(s.rounds) + s.added + checks;
    case CallWait =>
    case Lock(w) =>
      ProceedContinues(nBatchSize, Book(s, w), w);
      ContinuedAnswers(Book(s, w), Next(nBatchSize, s, step));
    case Wake(w) =>
      ProceedContinues(nBatchSize, s.(nIdle := s.nIdle - 1), w);
      ContinuedAnswers(s.(nIdle := s.nIdle - 1), Next(nBatchSize, s, step));
    case Work(w) =>
  }

  lemma ContinuedAnswers(s: State, u: State)
    requires Continues(s, u)
    ensures Answered(u.rounds) + u.added == Answered(s.rounds) + s.added
  {
    if u.rounds != s.rounds {
      assert u.rounds[..|s.rounds|] == s.rounds;
    }
  }

  /** Every check added belongs to exactly one round, in order: none is skipped and none leaks into the next. */
  lemma {:induction false} RoundsPartition(nBatchSize: nat, n: nat, ss: seq<State>, steps: seq<Step>, k: nat)
    requires Run(nBatchSize, ss, steps) && ss[0] == Initial(n) && k < |ss|
    ensures Answered(ss[k].rounds) + ss[k].added == Asked(steps[..k])
  {
    hide Inv, Next, Initial;
    if k == 0 {
      FreshHistory(n);
    } else {
      RoundsPartition(nBatchSize, n, ss, steps, k - 1);
      InitialInv(n);
      EveryRunKeepsInv(nBatchSize, ss, steps, k - 1);
      StepAnswers(nBatchSize, ss[k - 1], steps[k - 1]);
      assert steps[..k][..k - 1] == steps[..k - 1];
    }
  }

  lemma FreshHistory(n: nat)
    ensures Initial(n).rounds == [] && Initial(n).added == []
  {}

  // ---- Wait returns

  ghost function Weight(t: Thread): nat {
    match t
    case Outside => 0
    case Parked(notified) => if notified then 1 else 0
    case Entering(_, _) => 3
    case Working(batch, done, _) => 4 + if done <= |batch| then |batch| - done else 0
  }

  ghost function Rank(s: State): nat {
    6 * |s.queue| + Weight(s.master) + Sum(Weight, s.workers)
  }

  /** A step of the queue itself that is not a spurious wake-up. */
  ghost predicate Effective(s: State, step: Step) {
    Enabled(s, step) && match step
      case Lock(_) => true
      case Work(_) => true
      case Wake(w) => Get(s, w).notified
      case _ => false
  }

  lemma RankSet(s: State, w: Who, t: Thread)
    requires Exists(s, w)
    ensures Rank(Set(s, w, t)) == Rank(s) - Weight(Get(s, w)) + Weight(t)
  {
    if w.Worker? { SumSet(Weight, s.workers, w.i, t); }
  }

  lemma ProceedRank(nBatchSize: nat, s: State, w: Who)
    requires Exists(s, w) && s.nTotal + s.nIdle >= 0
    ensures s.queue == [] ==> Rank(Proceed(nBatchSize, s, w)) == Rank(s) - Weight(Get(s, w))
    ensures s.queue != [] ==> Rank(Proceed(nBatchSize, s, w)) < Rank(s) - Weight(Get(s, w))
  {
    hide Sum;
    RankSet(s, w, Outside);
    RankSet(s, w, Parked(false));
    if s.queue != [] {
      var n := BatchSize(nBatchSize, s);
      var t := Working(Reversed(s.queue[|s.queue| - n..]), 0, s.fAllOk);
      RankSet(s, w, t);
      assert Weight(t) == 4 + n;
    }
  }

  lemma BookRank(s: State, w: Who)
    requires Inv(s) && Enabled(s, Lock(w))
    ensures Rank(Book(s, w)) <= Rank(s) + 1 && Weight(Get(Book(s, w), w)) == 3
  {}

  lemma LockRank(nBatchSize: nat, s: State, w: Who)
    requires Inv(s) && Enabled(s, Lock(w)) && Exists(Book(s, w), w) && Book(s, w).nTotal + Book(s, w).nIdle >= 0
    ensures Rank(Proceed(nBatchSize, Book(s, w), w)) < Rank(s)
  {
    hide Inv, Proceed, Sum, Rank, Book;
    BookRank(s, w);
    ProceedRank(nBatchSize, Book(s, w), w);
  }

  lemma WakeRank(nBatchSize: nat, s: State, w: Who)
    requires Enabled(s, Wake(w)) && s.nIdle > 0 && s.nTotal + s.nIdle > 0
    ensures Rank(Proceed(nBatchSize, s.(nIdle := s.nIdle - 1), w)) <= Rank(s)
    ensures Get(s, w).notified ==> Rank(Proceed(nBatchSize, s.(nIdle := s.nIdle - 1), w)) < Rank(s)
  {
    var u := s.(nIdle := s.nIdle - 1);
    assert Rank(u) == Rank(s);
    hide Proceed, Sum, Rank;
    ProceedRank(nBatchSize, u, w);
  }

  lemma WorkRank(s: State, w: Who)
    requires Enabled(s, Work(w))
    ensures Rank(Set(s, w, Worked(Get(s, w)))) < Rank(s)
  {
    hide Sum, Rank;
    RankSet(s, w, Worked(Get(s, w)));
  }

  lemma BookExists(s: State, w: Who)
    requires Inv(s) && Enabled(s, Lock(w))
    ensures Exists(Book(s, w), w) && Book(s, w).nTotal + Book(s, w).nIdle >= 0
  {}

  /** Every effective step makes the measure smaller, a spurious wake-up never makes it larger. */
  lemma StepRank(nBatchSize: nat, s: State, step: Step)
    requires Inv(s) && Enabled(s, step) && !step.Add? && !step.CallWait?
    ensures Ready(s, step)
    ensures Rank(Next(nBatchSize, s, step)) <= Rank(s)
    ensures Effective(s, step) ==> Rank(Next(nBatchSize, s, step)) < Rank(s)
  {
    StepKeepsInv(nBatchSize, s, step);
    InvCounts(s);
    hide Inv, Proceed, Sum, Rank, Book;
    match step
    case Lock(w) =>
      BookExists(s, w);
      LockRank(nBatchSize, s, w);
    case Wake(w) => WakeRank(nBatchSize, s, w);
    case Work(w) => WorkRank(s, w);
  }

  /** Until Wait has returned, some effective step can be taken. */
  lemma WaitIsNeverStuck(s: State)
    requires Inv(s) && !s.master.Outside?
    ensures exists step :: Effective(s, step)
  {
    match s.master
    case Entering(_, _) => assert Effective(s, Lock(Master));
    case Working(_, _, _) => assert Effective(s, Work(Master));
    case Parked(notified) =>
      if notified {
        assert Effective(s, Wake(Master));
      } else {
        SomeoneHolds(s);
        var i :| 0 <= i < |s.workers| && Held(s.workers[i]) > 0;
        if s.workers[i].Working? {
          assert Effective(s, Work(Worker(i)));
        } else {
          assert Effective(s, Lock(Worker(i)));
        }
      }
  }

  ghost function EffectiveSteps(ss: seq<State>, steps: seq<Step>): nat
    requires |ss| == |steps| + 1
  {
    if steps == [] then 0
    else
      var n := |steps| - 1;
      EffectiveSteps(ss[..n + 1], steps[..n]) + if Effective(ss[n], steps[n]) then 1 else 0
  }

  /** Once Wait is called, any schedule takes at most Rank effective steps, whatever spurious wake-ups come
      between; and when none is left the master is out: Wait has returned. */
  lemma {:induction false} WaitReturns(nBatchSize: nat, ss: seq<State>, steps: seq<Step>)
    requires Run(nBatchSize, ss, steps) && Inv(ss[0])
    requires forall i :: 0 <= i < |steps| ==> !steps[i].Add? && !steps[i].CallWait?
    ensures EffectiveSteps(ss, steps) + Rank(ss[|steps|]) <= Rank(ss[0])
    ensures (forall step :: !Effective(ss[|steps|], step)) ==> ss[|steps|].master.Outside?
  {
    hide Inv, Next, Rank, Effective;
    var n := |steps|;
    EveryRunKeepsInv(nBatchSize, ss, steps, n);
    if !ss[n].master.Outside? { WaitIsNeverStuck(ss[n]); }
    if n > 0 {
      WaitReturns(nBatchSize, ss[..n], steps[..n - 1]);
      EveryRunKeepsInv(nBatchSize, ss, steps, n - 1);
      StepRank(nBatchSize, ss[n - 1], steps[n - 1]);
    }
  }
}

/** The verification queue: one master and any number of workers, as the atomic steps
    between lock and unlock of the queue's mutex. */
module CheckQueue {

  datatype Check = Check(id: nat, ok: bool)

  datatype Thread =
    | Outside                                            // the master between two calls of Wait
    | Entering(nNow: nat, fOk: bool)                     // about to lock, with the result of a batch of nNow
    | Parked(notified: bool)                             // inside cond.wait
    | Working(batch: seq<Check>, done: nat, fOk: bool)   // unlocked, done checks of the batch dealt with

  datatype Who = Master | Worker(i: nat)

  datatype Round = Round(checks: seq<Check>, result: bool)

  datatype State = State(
    queue: seq<Check>, nIdle: int, nTotal: int, fAllOk: bool, nTodo: int,
    master: Thread, workers: seq<Thread>,
    added: seq<Check>,       // history: the checks of the current round
    rounds: seq<Round>)      // history: what each Wait returned, and for which checks

  datatype Step =
    | Add(checks: seq<Check>, lucky: nat)   // lucky is the worker notify_one picks
    | CallWait
    | Lock(who: Who)
    | Wake(who: Who)
    | Work(who: Who)

  predicate Exists(s: State, w: Who) {
    w.Worker? ==> w.i < |s.workers|
  }

  function Get(s: State, w: Who): Thread
    requires Exists(s, w)
  {
    if w.Master? then s.master else s.workers[w.i]
  }

  function Set(s: State, w: Who, t: Thread): State
    requires Exists(s, w)
  {
    if w.Master? then s.(master := t) else s.(workers := s.workers[w.i := t])
  }

  function Notified(t: Thread): Thread {
    if t.Parked? then Parked(true) else t
  }

  function Max(a: nat, b: nat): nat { if a < b then b else a }
  function Min(a: nat, b: nat): nat { if a < b then a else b }

  function BatchSize(nBatchSize: nat, s: State): (n: nat)
    requires s.queue != [] && s.nTotal + s.nIdle >= 0
    ensures 1 <= n <= |s.queue|
  {
    Max(1, Min(nBatchSize, |s.queue| / (s.nTotal + s.nIdle + 1)))
  }

  /** A batch is an equal share of the queue among all threads and as many again as are idle, at most the batch size
      and at least one check. */
  lemma BatchIsShare(nBatchSize: nat, s: State)
    requires s.queue != [] && s.nTotal + s.nIdle >= 0
    ensures var n, d := BatchSize(nBatchSize, s), s.nTotal + s.nIdle + 1;
            && (n == 1 || (n <= nBatchSize && n * d <= |s.queue|))
            && (n < nBatchSize ==> (n + 1) * d > |s.queue|)
  {
    var q, d := |s.queue|, s.nTotal + s.nIdle + 1;
    var k := q / d;
    assert q == k * d + q % d;
    var n := BatchSize(nBatchSize, s);
    MulUpTo(n, k, d);
    if n < nBatchSize { MulUpTo(k + 1, n + 1, d); }
  }

  lemma MulUpTo(a: int, b: int, d: int)
    requires d > 0
    ensures a <= b ==> a * d <= b * d
    ensures (b + 1) * d == b * d + d && (a + 1) * d == a * d + d
  {}

  /** The first part of the critical section: book the finished batch, or join the pool. */
  function Book(s: State, w: Who): State
    requires Exists(s, w) && Get(s, w).Entering?
  {
    var t := Get(s, w);
    if t.nNow == 0 then s.(nTotal := s.nTotal + 1)
    else
      var u := s.(fAllOk := s.fAllOk && t.fOk, nTodo := s.nTodo - t.nNow);
      if u.nTodo == 0 && w.Worker? then u.(master := Notified(u.master)) else u
  }

  function Reversed(v: seq<Check>): (r: seq<Check>)
    ensures |r| == |v| && forall i :: 0 <= i < |v| ==> r[i] == v[|v| - 1 - i]
  {
    if v == [] then [] else [v[|v| - 1]] + Reversed(v[..|v| - 1])
  }

  /** The waiting loop and the choice of a batch, taken from the back of the queue. */
  function Proceed(nBatchSize: nat, s: State, w: Who): State
    requires Exists(s, w) && s.nTotal + s.nIdle >= 0
  {
    if s.queue == [] then
      if w.Master? && s.nTodo == 0 then
        s.(nTotal := s.nTotal - 1, fAllOk := true, master := Outside,
           added := [], rounds := s.rounds + [Round(s.added, s.fAllOk)])
      else
        Set(s, w, Parked(false)).(nIdle := s.nIdle + 1)
    else
      var rest := |s.queue| - BatchSize(nBatchSize, s);
      Set(s, w, Working(Reversed(s.queue[rest..]), 0, s.fAllOk)).(queue := s.queue[..rest])
  }

  predicate Enabled(s: State, step: Step) {
    match step
    case Add(_, _) => s.master.Outside?
    case CallWait => s.master.Outside?
    case Lock(w) => Exists(s, w) && Get(s, w).Entering?
    case Wake(w) => Exists(s, w) && Get(s, w).Parked?
    case Work(w) => Exists(s, w) && Get(s, w).Working?
  }

  /** notify_one or notify_all on the workers' condition, by the number of checks added. */
  function Rouse(ts: seq<Thread>, count: nat, lucky: nat): (us: seq<Thread>)
    ensures |us| == |ts|
    ensures forall i :: 0 <= i < |ts| ==> us[i] == ts[i] || (ts[i].Parked? && us[i] == Parked(true))
  {
    if count == 0 then ts
    else if count == 1 then if lucky < |ts| then ts[lucky := Notified(ts[lucky])] else ts
    else seq(|ts|, i requires 0 <= i < |ts| => Notified(ts[i]))
  }

  /** One check of the batch: skipped once a failure is known. */
  function Worked(t: Thread): Thread
    requires t.Working?
  {
    if t.done < |t.batch| then t.(done := t.done + 1, fOk := t.fOk && t.batch[t.done].ok)
    else Entering(|t.batch|, t.fOk)
  }

  predicate Counts(s: State) {
    s.nTotal >= 0 && s.nIdle >= 0
  }

  function Next(nBatchSize: nat, s: State, step: Step): State
    requires Enabled(s, step) && Counts(s)
    requires step.Wake? ==> s.nIdle > 0
  {
    match step
    case Add(checks, lucky) =>
      s.(queue := s.queue + checks, nTodo := s.nTodo + |checks|, added := s.added + checks,
         workers := Rouse(s.workers, |checks|, lucky))
    case CallWait => s.(master := Entering(0, true))
    case Lock(w) => Proceed(nBatchSize, Book(s, w), w)
    case Wake(w) => Proceed(nBatchSize, s.(nIdle := s.nIdle - 1), w)
    case Work(w) => Set(s, w, Worked(Get(s, w)))
  }

  /** A fresh queue with n worker threads about to start. */
  function Initial(n: nat): State {
    State([], 0, 0, true, 0, Outside, seq(n, _ => Entering(0, true)), [], [])
  }
}

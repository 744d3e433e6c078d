/** What every run of InstantSend keeps, expiry included. */
module InstantSendProofs {
  import opened InstantSendModel

  // ---- what is always so

  ghost predicate VotesMatch(h: Hash, locks: Locks) {
    forall o, m :: o in locks && m in locks[o].votes ==> locks[o].votes[m] == Vote(h, o, m)
  }

  /** A candidate is filed under its transaction's hash, locks all its inputs or none yet, and holds
      only votes for itself. */
  ghost predicate FormedCandidate(h: Hash, c: Candidate) {
    && VotesMatch(h, c.locks)
    && match c.request
       case NoRequest => c.locks.Keys == {}
       case Request(txHash, vin) => txHash == h && (c.locks.Keys == {} || c.locks.Keys == SetOf(vin))
  }

  ghost predicate Formed(candidates: Candidates) {
    forall h :: h in candidates ==> FormedCandidate(h, candidates[h])
  }

  ghost predicate Backs(candidates: Candidates, h: Hash, o: OutPoint) {
    && h in candidates && o in candidates[h].locks
    && |candidates[h].locks[o].votes| >= SIGNATURES_REQUIRED
  }

  /** Every completed lock rests on a quorum of stored votes. */
  ghost predicate Backed(candidates: Candidates, locked: map<OutPoint, Hash>) {
    forall o :: o in locked ==> Backs(candidates, locked[o], o)
  }

  ghost predicate Inv(s: State) {
    Formed(s.candidates) && Backed(s.candidates, s.locked)
  }

  ghost predicate Fuller(a: OutPointLock, b: OutPointLock) {
    |a.votes| <= |b.votes| && a.votes.Keys <= b.votes.Keys && (a.attacked ==> b.attacked)
  }

  ghost predicate GrowsAt(a: Candidate, b: Candidate) {
    && (a.locks.Keys != {} ==> a.locks.Keys == b.locks.Keys)
    && (forall o :: o in a.locks && o in b.locks ==> Fuller(a.locks[o], b.locks[o]))
  }

  /** Candidates stay, and their locks only gain votes and marks. */
  ghost predicate Grows(a: Candidates, b: Candidates) {
    forall h :: h in a ==> h in b && GrowsAt(a[h], b[h])
  }

  lemma GrowingKeepsBacked(a: Candidates, b: Candidates, locked: map<OutPoint, Hash>)
    requires Backed(a, locked) && Grows(a, b)
    ensures Backed(b, locked)
  {
    forall o | o in locked ensures Backs(b, locked[o], o) {
      assert Backs(a, locked[o], o) && GrowsAt(a[locked[o]], b[locked[o]]);
    }
  }

  lemma GrowsAgain(a: Candidates, b: Candidates, c: Candidates)
    requires Grows(a, b) && Grows(b, c)
    ensures Grows(a, c)
  {
    forall h | h in a ensures h in c && GrowsAt(a[h], c[h]) {
      assert GrowsAt(a[h], b[h]) && GrowsAt(b[h], c[h]);
    }
  }

  /** One candidate replaced. */
  lemma Replaced(a: Candidates, h: Hash, c: Candidate)
    requires Formed(a) && FormedCandidate(h, c) && (h in a ==> GrowsAt(a[h], c))
    ensures Formed(a[h := c]) && Grows(a, a[h := c])
  {
    hide FormedCandidate, GrowsAt;
    forall k | k in a && k != h ensures GrowsAt(a[k], a[h := c][k]) { GrowsSelf(a[k]); }
  }

  lemma GrowsSelf(c: Candidate)
    ensures GrowsAt(c, c)
  {}

  lemma CreatedKeeps(a: Candidates, r: Request, e: Env)
    requires Formed(a)
    ensures Formed(Created(a, r, e)) && Grows(a, Created(a, r, e))
    ensures CreateSucceeds(a, r, e) ==> r.txHash in Created(a, r, e)
  {
    hide Formed, Grows;
    NothingGrows(a);
    if e.requestIsValid && r.Request? {
      if r.txHash !in a {
        Replaced(a, r.txHash, Candidate(r, WithLocks(map[], SetOf(r.vin)), -1, e.now));
      } else if a[r.txHash].request.NoRequest? {
        var c := a[r.txHash];
        assert FormedCandidate(r.txHash, c) by { FormedAt(a, r.txHash); }
        Replaced(a, r.txHash, c.(request := r));
        Replaced(a, r.txHash, c.(request := r, locks := WithLocks(c.locks, SetOf(r.vin))));
      }
    }
  }

  lemma FormedAt(a: Candidates, h: Hash)
    requires Formed(a) && h in a
    ensures FormedCandidate(h, a[h])
  {}

  lemma NothingGrows(a: Candidates)
    ensures Grows(a, a)
  {
    forall h | h in a ensures GrowsAt(a[h], a[h]) { GrowsSelf(a[h]); }
  }

  lemma CreatedEmptyKeeps(a: Candidates, h: Hash, e: Env)
    requires Formed(a)
    ensures Formed(CreatedEmpty(a, h, e)) && Grows(a, CreatedEmpty(a, h, e))
  {
    NothingGrows(a);
    if h !in a { Replaced(a, h, Candidate(NoRequest, map[], -1, e.now)); }
  }

  lemma AttackedKeeps(h: Hash, c: Candidate, o: OutPoint)
    requires FormedCandidate(h, c)
    ensures FormedCandidate(h, c.Attacked(o)) && GrowsAt(c, c.Attacked(o))
  {
    assert o in c.locks ==> c.Attacked(o).locks.Keys == c.locks.Keys;
  }

  lemma MarkedKeeps(s: State, v: Vote)
    requires Formed(s.candidates)
    ensures Formed(Marked(s, v)) && Grows(s.candidates, Marked(s, v))
  {
    hide FormedCandidate, GrowsAt, Candidate.Attacked, VotedElsewhere;
    forall h | h in s.candidates
      ensures FormedCandidate(h, Marked(s, v)[h]) && GrowsAt(s.candidates[h], Marked(s, v)[h])
    {
      FormedAt(s.candidates, h);
      AttackedKeeps(h, s.candidates[h], v.outpoint);
      GrowsSelf(s.candidates[h]);
    }
  }

  lemma WithVoteKeeps(h: Hash, c: Candidate, v: Vote)
    requires FormedCandidate(h, c) && c.CanAdd(v) && v.txHash == h
    ensures FormedCandidate(h, c.WithVote(v)) && GrowsAt(c, c.WithVote(v))
  {
    assert c.WithVote(v).locks.Keys == c.locks.Keys;
  }

  // ---- completing and sweeping

  lemma SweptKeeps(s: State, e: Env)
    requires Inv(s)
    ensures Inv(Swept(s, e))
  {
    hide FormedCandidate;
    var u := Swept(s, e);
    if e.synced {
      forall o | o in u.locked ensures Backs(u.candidates, u.locked[o], o) {
        assert Backs(s.candidates, s.locked[o], o);
        assert !Doomed(s.candidates, s.nCachedBlockHeight, o);
      }
    }
  }

  lemma Reconfirmed(a: Candidates, locked: map<OutPoint, Hash>, h: Hash, n: int)
    requires Formed(a) && Backed(a, locked) && h in a
    ensures var b := a[h := a[h].(nConfirmedHeight := n)]; Formed(b) && Backed(b, locked)
  {
    hide Formed, Backed;
    var c := a[h].(nConfirmedHeight := n);
    FormedAt(a, h);
    Replaced(a, h, c);
    GrowingKeepsBacked(a, a[h := c], locked);
  }

  lemma DroppedKeeps(s: State, h: Hash, g: Hash, e: Env)
    requires Inv(s)
    ensures Inv(Dropped(s, h, g, e))
  {
    hide Formed, Backed, Swept;
    if h in s.candidates && g in s.candidates {
      var c1 := s.candidates[h := s.candidates[h].(nConfirmedHeight := 0)];
      Reconfirmed(s.candidates, s.locked, h, 0);
      Reconfirmed(c1, s.locked, g, 0);
      var c2 := c1[g := c1[g].(nConfirmedHeight := 0)];
      SweptKeeps(s.(candidates := c2), e);
    }
  }

  lemma {:induction false} ResolvedKeeps(s: State, h: Hash, vin: seq<OutPoint>, i: nat, e: Env)
    requires Inv(s) && i <= |vin|
    ensures var (u, ok) := Resolved(s, h, vin, i, e);
            && Inv(u)
            && (ok ==> u == s && forall j :: i <= j < |vin| ==> !ConflictsAt(s, h, vin[j]))
    decreases |vin| - i
  {
    hide Inv, Dropped;
    if i < |vin| {
      if ConflictsAt(s, h, vin[i]) {
        DroppedKeeps(s, h, s.locked[vin[i]], e);
      } else {
        ResolvedKeeps(s, h, vin, i + 1, e);
      }
    }
  }

  ghost predicate Holds(s: State, c: Candidate) {
    c.request.GetHash() in s.candidates && s.candidates[c.request.GetHash()] == c
  }

  /** Completing a ready lock keeps every completed lock backed. */
  lemma LockInputsKeeps(s: State, c: Candidate)
    requires Inv(s) && Holds(s, c)
    ensures Inv(LockInputs(s, c))
  {
    hide FormedCandidate;
    var u := LockInputs(s, c);
    forall o | o in u.locked ensures Backs(u.candidates, u.locked[o], o) {
      if o in s.locked { assert Backs(s.candidates, s.locked[o], o); } else { assert c.locks[o].IsReady(); }
    }
  }

  lemma FinalizedKeeps(s: State, c: Candidate, e: Env)
    requires Inv(s) && (c.IsAllOutPointsReady() ==> Holds(s, c))
    ensures Inv(Finalized(s, c, e))
  {
    hide Inv, Candidate.IsAllOutPointsReady, Resolved, LockInputs, Holds, IsLocked;
    if c.IsAllOutPointsReady() {
      var h := c.request.GetHash();
      ResolvedKeeps(s, h, c.request.Inputs(), 0, e);
      if Resolved(s, h, c.request.Inputs(), 0, e).1 { LockInputsKeeps(s, c); }
    }
  }

  /** When no conflict is found, the insert-only locking leaves every input of the transaction locked by it. */
  lemma CompletesEveryInput(s: State, c: Candidate, e: Env)
    requires Inv(s) && Holds(s, c) && c.IsAllOutPointsReady()
    requires Resolved(s, c.request.GetHash(), c.request.Inputs(), 0, e).1
    ensures Finalized(s, c, e) == if IsLocked(s, c.request.GetHash()) then s else LockInputs(s, c)
    ensures IsLocked(LockInputs(s, c), c.request.GetHash())
    ensures c.request.Request?
    ensures forall o :: o in c.request.vin ==>
              o in LockInputs(s, c).locked && LockInputs(s, c).locked[o] == c.request.txHash
  {
    hide Resolved, Backed, VotesMatch;
    var h := c.request.GetHash();
    FormedAt(s.candidates, h);
    ResolvedKeeps(s, h, c.request.Inputs(), 0, e);
    var vin := c.request.vin;
    forall o | o in vin ensures !ConflictsAt(s, h, o) {
      var j :| 0 <= j < |vin| && vin[j] == o;
      assert !ConflictsAt(s, h, vin[j]);
    }
    assert c.locks.Keys == SetOf(vin);
  }

  // ---- the operations

  lemma HeldIfReady(s: State, h: Hash)
    requires Inv(s) && h in s.candidates && s.candidates[h].IsAllOutPointsReady()
    ensures Holds(s, s.candidates[h])
  {
    FormedAt(s.candidates, h);
  }

  lemma RequestedKeeps(s: State, r: Request, e: Env)
    requires Inv(s)
    ensures Inv(Requested(s, r, e))
  {
    hide Created, Formed, Backed, Finalized, Candidate.IsAllOutPointsReady, Holds;
    CreatedKeeps(s.candidates, r, e);
    var u := s.(candidates := Created(s.candidates, r, e));
    GrowingKeepsBacked(s.candidates, u.candidates, s.locked);
    if CreateSucceeds(s.candidates, r, e) {
      var c := u.candidates[r.txHash];
      if c.IsAllOutPointsReady() { HeldIfReady(u, r.txHash); }
      FinalizedKeeps(u, c, e);
    }
  }

  lemma OrphanedKeeps(s: State, v: Vote, e: Env)
    requires Inv(s)
    ensures Inv(Orphaned(s, v, e))
  {
    hide CreatedEmpty, Requested, Formed, Backed, EnoughOrphansFor;
    CreatedEmptyKeeps(s.candidates, v.txHash, e);
    var u := s.(candidates := CreatedEmpty(s.candidates, v.txHash, e), orphans := s.orphans + {v});
    GrowingKeepsBacked(s.candidates, u.candidates, s.locked);
    if Known(s, v.txHash) { RequestedKeeps(u, RequestOf(s, v.txHash), e); }
  }

  lemma CountedKeeps(s: State, v: Vote, e: Env)
    requires Inv(s) && v.txHash in s.candidates
    ensures Inv(Counted(s, v, e))
  {
    hide Marked, Formed, Backed, Finalized, Candidate.WithVote, Candidate.IsAllOutPointsReady, Holds, Recorded,
         FormedCandidate, GrowsAt;
    MarkedKeeps(s, v);
    GrowingKeepsBacked(s.candidates, Marked(s, v), s.locked);
    MarkedKeys(s, v);
    var u := s.(candidates := Marked(s, v), voted := Recorded(s.voted, v.outpoint, v.txHash));
    var c := u.candidates[v.txHash];
    if c.CanAdd(v) {
      FormedAt(u.candidates, v.txHash);
      WithVoteKeeps(v.txHash, c, v);
      Replaced(u.candidates, v.txHash, c.WithVote(v));
      var w := u.(candidates := u.candidates[v.txHash := c.WithVote(v)]);
      GrowingKeepsBacked(u.candidates, w.candidates, s.locked);
      if c.WithVote(v).IsAllOutPointsReady() { HeldIfReady(w, v.txHash); }
      FinalizedKeeps(w, c.WithVote(v), e);
    }
  }

  lemma MarkedKeys(s: State, v: Vote)
    ensures Marked(s, v).Keys == s.candidates.Keys
  {}

  lemma ProcessedKeeps(s: State, v: Vote, valid: bool, e: Env)
    requires Inv(s)
    ensures Inv(Processed(s, v, valid, e))
  {
    hide Inv, Orphaned, Counted;
    if valid {
      if Waits(s, v) { OrphanedKeeps(s, v, e); } else { CountedKeeps(s, v, e); }
    }
  }

  lemma CastKeeps(s: State, h: Hash, o: OutPoint, m: OutPoint)
    requires Inv(s) && h in s.candidates
    ensures Inv(Cast(s, h, o, m)) && h in Cast(s, h, o, m).candidates &&
              Grows(s.candidates, Cast(s, h, o, m).candidates)
  {
    hide Formed, Backed, GrowsAt, Recorded;
    var c := s.candidates[h];
    var v := Vote(c.request.GetHash(), o, m);
    NothingGrows(s.candidates);
    if c.CanAdd(v) {
      FormedAt(s.candidates, h);
      WithVoteKeeps(h, c, v);
      Replaced(s.candidates, h, c.WithVote(v));
      GrowingKeepsBacked(s.candidates, s.candidates[h := c.WithVote(v)], s.locked);
    }
  }

  lemma {:induction false} VotedOnKeeps(s: State, h: Hash, m: OutPoint, order: seq<OutPoint>,
                                        ballot: OutPoint -> Ballot)
    requires Inv(s) && h in s.candidates
    ensures Inv(VotedOn(s, h, m, order, ballot)) && h in VotedOn(s, h, m, order, ballot).candidates
    decreases |order|
  {
    hide Inv, Cast, AlreadyVoted;
    if order != [] {
      VotedOnKeeps(s, h, m, order[1..], ballot);
      CastKeeps(s, h, order[0], m);
      VotedOnKeeps(Cast(s, h, order[0], m), h, m, order[1..], ballot);
    }
  }

  lemma OwnVotedKeeps(s: State, h: Hash, m: OutPoint, order: seq<OutPoint>, ballot: OutPoint -> Ballot, e: Env)
    requires Inv(s)
    ensures Inv(OwnVoted(s, h, m, order, ballot, e))
  {
    hide Inv, VotedOn, Finalized, Holds, Candidate.IsAllOutPointsReady;
    if h in s.candidates {
      VotedOnKeeps(s, h, m, order, ballot);
      var u := if s.candidates[h].request.GetHash() in s.accepted then VotedOn(s, h, m, order, ballot) else s;
      if u.candidates[h].IsAllOutPointsReady() { HeldIfReady(u, h); }
      FinalizedKeeps(u, u.candidates[h], e);
    }
  }

  // ---- runs

  datatype Op =
    | LockRequest(r: Request)
    | LockVote(v: Vote, valid: bool)
    | OwnVote(h: Hash, m: OutPoint, order: seq<OutPoint>, ballot: OutPoint -> Ballot)
    | Accept(r: Request)
    | Reject(r: Request)
    | SyncTransaction(h: Hash, nHeight: int)
    | UpdatedBlockTip(nHeight: int)
    | CheckAndRemove

  function Confirmed(s: State, h: Hash, nHeight: int): State {
    if h in s.candidates then s.(candidates := s.candidates[h := s.candidates[h].(nConfirmedHeight := nHeight)]) else s
  }

  ghost function Next(s: State, op: Op, e: Env): State {
    match op
    case LockRequest(r) => Requested(s, r, e)
    case LockVote(v, valid) => Processed(s, v, valid, e)
    case OwnVote(h, m, order, ballot) => OwnVoted(s, h, m, order, ballot, e)
    case Accept(r) => s.(accepted := Inserted(s.accepted, r.GetHash(), r))
    case Reject(r) => s.(rejected := Inserted(s.rejected, r.GetHash(), r))
    case SyncTransaction(h, nHeight) => Confirmed(s, h, nHeight)
    case UpdatedBlockTip(nHeight) => s.(nCachedBlockHeight := nHeight)
    case CheckAndRemove => Swept(s, e)
  }

  const INITIAL: State := State(map[], map[], map[], map[], map[], {}, 0)

  ghost predicate Run(ss: seq<State>, ops: seq<Op>, es: seq<Env>) {
    && |ss| == |ops| + 1 && |es| == |ops|
    && ss[0] == INITIAL
    && forall i :: 0 <= i < |ops| ==> ss[i + 1] == Next(ss[i], ops[i], es[i])
  }

  lemma NextKeeps(s: State, op: Op, e: Env)
    requires Inv(s)
    ensures Inv(Next(s, op, e))
  {
    hide Requested, Processed, OwnVoted, Swept;
    match op
    case LockRequest(r) => RequestedKeeps(s, r, e);
    case LockVote(v, valid) => ProcessedKeeps(s, v, valid, e);
    case OwnVote(h, m, order, ballot) => OwnVotedKeeps(s, h, m, order, ballot, e);
    case SyncTransaction(h, nHeight) => if h in s.candidates { Reconfirmed(s.candidates, s.locked, h, nHeight); }
    case CheckAndRemove => SweptKeeps(s, e);
    case _ =>
  }

  /** In every reachable state, sweeps included. */
  lemma {:induction false} EveryRunKeepsInv(ss: seq<State>, ops: seq<Op>, es: seq<Env>, k: nat)
    requires Run(ss, ops, es) && k < |ss|
    ensures Inv(ss[k])
  {
    if k > 0 {
      hide Inv, Next;
      EveryRunKeepsInv(ss, ops, es, k - 1);
      NextKeeps(ss[k - 1], ops[k - 1], es[k - 1]);
    }
  }

  /** A locked outpoint has six masternodes whose stored votes name exactly that transaction and outpoint. */
  lemma LockedHasQuorum(ss: seq<State>, ops: seq<Op>, es: seq<Env>, k: nat, o: OutPoint)
    requires Run(ss, ops, es) && k < |ss| && o in ss[k].locked
    ensures var h := ss[k].locked[o];
            && h in ss[k].candidates && o in ss[k].candidates[h].locks
            && var votes := ss[k].candidates[h].locks[o].votes;
               && |votes.Keys| >= SIGNATURES_REQUIRED
               && forall m :: m in votes ==> votes[m] == Vote(h, o, m)
  {
    hide Next;
    EveryRunKeepsInv(ss, ops, es, k);
    assert Backs(ss[k].candidates, ss[k].locked[o], o);
    FormedAt(ss[k].candidates, ss[k].locked[o]);
  }

  lemma LockedInput(s: State, h: Hash, o: OutPoint)
    requires Inv(s) && IsLocked(s, h) && o in s.candidates[h].request.Inputs()
    ensures o in s.locked && s.locked[o] == h
  {
    FormedAt(s.candidates, h);
    assert o in SetOf(s.candidates[h].request.vin);
  }

  /** Two transactions that share an input are never both reported locked. */
  lemma NeverBothLocked(ss: seq<State>, ops: seq<Op>, es: seq<Env>, k: nat, g: Hash, h: Hash, o: OutPoint)
    requires Run(ss, ops, es) && k < |ss| && g != h
    requires g in ss[k].candidates && o in ss[k].candidates[g].request.Inputs()
    requires h in ss[k].candidates && o in ss[k].candidates[h].request.Inputs()
    ensures !IsLocked(ss[k], g) || !IsLocked(ss[k], h)
  {
    hide Next, IsLocked;
    EveryRunKeepsInv(ss, ops, es, k);
    if IsLocked(ss[k], g) { LockedInput(ss[k], g, o); }
    if IsLocked(ss[k], h) { LockedInput(ss[k], h, o); }
  }
}

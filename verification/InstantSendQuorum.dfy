/** With at most ten masternodes entitled to vote on an outpoint, and as long as no sweep forgets a vote that is
    still stored, a double vote cannot complete two locks: nothing conflicting with a lock can complete. */
module InstantSendQuorum {
  import opened InstantSendModel
  import opened InstantSendProofs

  /** The masternodes entitled to vote on an outpoint. */
  type Quorum = OutPoint -> set<OutPoint>

  ghost predicate Bounded(q: Quorum) {
    forall o :: |q(o)| <= SIGNATURES_TOTAL
  }

  ghost predicate HasVote(cs: Candidates, h: Hash, o: OutPoint, m: OutPoint) {
    h in cs && cs[h].HasMasternodeVoted(o, m)
  }

  ghost predicate AllRecorded(cs: Candidates, voted: Voted) {
    forall h, o, m :: HasVote(cs, h, o, m) ==> o in voted && h in voted[o]
  }

  /** A masternode recorded for two transactions has had both locks marked. */
  ghost predicate DoubleMarked(cs: Candidates) {
    forall g, h, o, m :: g != h && HasVote(cs, g, o, m) && HasVote(cs, h, o, m) ==>
      cs[g].locks[o].attacked && cs[h].locks[o].attacked
  }

  ghost predicate Entitled(q: Quorum, cs: Candidates) {
    forall h, o, m :: HasVote(cs, h, o, m) ==> m in q(o)
  }

  ghost predicate Watched(q: Quorum, s: State) {
    AllRecorded(s.candidates, s.voted) && DoubleMarked(s.candidates) && Entitled(q, s.candidates)
  }

  // ---- six and six out of ten

  lemma SubsetSize(a: set<OutPoint>, b: set<OutPoint>)
    requires a <= b
    ensures |a| <= |b|
  {
    assert b == a + (b - a);
  }

  lemma QuorumsMeet(a: set<OutPoint>, b: set<OutPoint>, all: set<OutPoint>) returns (m: OutPoint)
    requires a <= all && b <= all && |all| <= SIGNATURES_TOTAL
    requires |a| >= SIGNATURES_REQUIRED && |b| >= SIGNATURES_REQUIRED
    ensures m in a && m in b
  {
    SubsetSize(a + b, all);
    assert |a + b| + |a * b| == |a| + |b|;
    assert a * b != {};
    m :| m in a * b;
  }

  /** A quorum of votes for one transaction keeps every other from being ready on the same outpoint. */
  lemma OnlyOneReady(q: Quorum, s: State, g: Hash, h: Hash, o: OutPoint)
    requires Bounded(q) && Watched(q, s) && g != h
    requires Backs(s.candidates, g, o) && h in s.candidates && o in s.candidates[h].locks
    ensures !s.candidates[h].locks[o].IsReady()
  {
    var a, b := s.candidates[g].locks[o].votes, s.candidates[h].locks[o].votes;
    if |b| >= SIGNATURES_REQUIRED {
      forall m | m in a ensures m in q(o) { assert HasVote(s.candidates, g, o, m); }
      forall m | m in b ensures m in q(o) { assert HasVote(s.candidates, h, o, m); }
      assert |a| == |a.Keys| && |b| == |b.Keys|;
      var m := QuorumsMeet(a.Keys, b.Keys, q(o));
      assert HasVote(s.candidates, g, o, m) && HasVote(s.candidates, h, o, m);
    }
  }

  // ---- one step

  /** Candidates and completed locks only grow. */
  ghost predicate Steady(s: State, u: State) {
    && Grows(s.candidates, u.candidates)
    && forall o :: o in s.locked ==> o in u.locked && u.locked[o] == s.locked[o]
  }

  /** No vote is new, and marks stay. */
  ghost predicate NoNewVotes(a: Candidates, b: Candidates) {
    forall h, o, m :: HasVote(b, h, o, m) ==> HasVote(a, h, o, m) && (a[h].locks[o].attacked ==> b[h].locks[o].attacked)
  }

  lemma StillWatched(q: Quorum, s: State, u: State)
    requires Watched(q, s) && NoNewVotes(s.candidates, u.candidates)
    requires forall o :: o in s.voted ==> o in u.voted && s.voted[o] <= u.voted[o]
    ensures Watched(q, u)
  {
    hide HasVote;
  }

  lemma CreatedNoVotes(a: Candidates, r: Request, e: Env)
    requires Formed(a)
    ensures NoNewVotes(a, Created(a, r, e))
  {
    var b := Created(a, r, e);
    forall h, o, m | HasVote(b, h, o, m)
      ensures HasVote(a, h, o, m) && (a[h].locks[o].attacked ==> b[h].locks[o].attacked)
    {
      if h in a { FormedAt(a, h); }
    }
  }

  lemma MarkedNoVotes(s: State, v: Vote)
    ensures NoNewVotes(s.candidates, Marked(s, v))
  {
    hide VotedElsewhere;
  }

  lemma VoteRecordedAndMarked(q: Quorum, s: State, h: Hash, v: Vote)
    requires Watched(q, s) && h in s.candidates && s.candidates[h].CanAdd(v) && v.txHash == h
    requires v.masternode in q(v.outpoint) && v.outpoint in s.voted && h in s.voted[v.outpoint]
    requires forall g :: g != h && HasVote(s.candidates, g, v.outpoint, v.masternode) ==>
               s.candidates[g].locks[v.outpoint].attacked && s.candidates[h].locks[v.outpoint].attacked
    ensures Watched(q, s.(candidates := s.candidates[h := s.candidates[h].WithVote(v)]))
  {
    var cs := s.candidates[h := s.candidates[h].WithVote(v)];
    forall g, o, m | HasVote(cs, g, o, m)
      ensures HasVote(s.candidates, g, o, m) || (g == h && o == v.outpoint && m == v.masternode)
      ensures g in s.candidates && o in s.candidates[g].locks &&
                cs[g].locks[o].attacked == s.candidates[g].locks[o].attacked
    {}
  }

  lemma NeverConflicts(q: Quorum, s: State, c: Candidate, o: OutPoint)
    requires Bounded(q) && Watched(q, s) && Inv(s) && Holds(s, c) && c.IsAllOutPointsReady()
    requires o in c.request.Inputs()
    ensures !ConflictsAt(s, c.request.GetHash(), o)
  {
    hide Watched, Bounded;
    var h := c.request.GetHash();
    FormedAt(s.candidates, h);
    assert o in SetOf(c.request.vin);
    assert c.locks[o].IsReady();
    if ConflictsAt(s, h, o) {
      assert Backs(s.candidates, s.locked[o], o);
      OnlyOneReady(q, s, s.locked[o], h, o);
    }
  }

  lemma {:induction false} ResolvedWithoutConflict(s: State, h: Hash, vin: seq<OutPoint>, i: nat, e: Env)
    requires i <= |vin| && forall j :: i <= j < |vin| ==> !ConflictsAt(s, h, vin[j])
    ensures Resolved(s, h, vin, i, e).0 == s
    decreases |vin| - i
  {
    if i < |vin| { ResolvedWithoutConflict(s, h, vin, i + 1, e); }
  }

  /** The branch that drops two completed locks is never taken, so finalizing only ever adds locks. */
  lemma FinalizedOnlyLocks(q: Quorum, s: State, c: Candidate, e: Env)
    requires Bounded(q) && Watched(q, s) && Inv(s) && (c.IsAllOutPointsReady() ==> Holds(s, c))
    ensures var u := Finalized(s, c, e);
            && u == s.(locked := u.locked)
            && forall o :: o in s.locked ==> o in u.locked && u.locked[o] == s.locked[o]
  {
    hide Watched, Inv, Bounded, Resolved, Candidate.IsAllOutPointsReady, ConflictsAt, Holds, IsLocked;
    if c.IsAllOutPointsReady() {
      var h, vin := c.request.GetHash(), c.request.Inputs();
      forall j | 0 <= j < |vin| ensures !ConflictsAt(s, h, vin[j]) { NeverConflicts(q, s, c, vin[j]); }
      ResolvedWithoutConflict(s, h, vin, 0, e);
    }
  }

  lemma FinalizedSteady(q: Quorum, s: State, c: Candidate, e: Env)
    requires Bounded(q) && Watched(q, s) && Inv(s) && (c.IsAllOutPointsReady() ==> Holds(s, c))
    ensures Watched(q, Finalized(s, c, e)) && Steady(s, Finalized(s, c, e))
  {
    hide Finalized, Inv, Bounded, AllRecorded, DoubleMarked, Entitled, Grows, Candidate.IsAllOutPointsReady, Holds;
    FinalizedOnlyLocks(q, s, c, e);
    NothingGrows(s.candidates);
  }

  lemma SteadyAgain(s: State, u: State, w: State)
    requires Steady(s, u) && Steady(u, w)
    ensures Steady(s, w)
  {
    hide Grows;
    GrowsAgain(s.candidates, u.candidates, w.candidates);
  }

  lemma RequestedSteady(q: Quorum, s: State, r: Request, e: Env)
    requires Bounded(q) && Watched(q, s) && Inv(s)
    ensures Watched(q, Requested(s, r, e)) && Steady(s, Requested(s, r, e))
  {
    hide Watched, Formed, Backed, Bounded, NoNewVotes, Finalized, Created, Grows, Candidate.IsAllOutPointsReady, Holds;
    CreatedKeeps(s.candidates, r, e);
    CreatedNoVotes(s.candidates, r, e);
    var u := s.(candidates := Created(s.candidates, r, e));
    StillWatched(q, s, u);
    GrowingKeepsBacked(s.candidates, u.candidates, s.locked);
    if CreateSucceeds(s.candidates, r, e) {
      var c := u.candidates[r.txHash];
      if c.IsAllOutPointsReady() { HeldIfReady(u, r.txHash); }
      FinalizedSteady(q, u, c, e);
      SteadyAgain(s, u, Finalized(u, c, e));
    }
  }

  lemma EmptyNoVotes(a: Candidates, h: Hash, e: Env)
    ensures NoNewVotes(a, CreatedEmpty(a, h, e))
  {}

  lemma OrphanedSteady(q: Quorum, s: State, v: Vote, e: Env)
    requires Bounded(q) && Watched(q, s) && Inv(s)
    ensures Watched(q, Orphaned(s, v, e)) && Steady(s, Orphaned(s, v, e))
  {
    hide Watched, Formed, Backed, Bounded, NoNewVotes, CreatedEmpty, Requested, Grows, EnoughOrphansFor;
    NothingGrows(s.candidates);
    CreatedEmptyKeeps(s.candidates, v.txHash, e);
    EmptyNoVotes(s.candidates, v.txHash, e);
    var u := s.(candidates := CreatedEmpty(s.candidates, v.txHash, e), orphans := s.orphans + {v});
    StillWatched(q, s, u);
    GrowingKeepsBacked(s.candidates, u.candidates, s.locked);
    if Known(s, v.txHash) {
      var r := RequestOf(s, v.txHash);
      RequestedSteady(q, u, r, e);
      SteadyAgain(s, u, Requested(u, r, e));
    }
  }

  /** After marking, whoever else holds this masternode's vote is marked, and so is the voted-for lock. */
  lemma MarkedBoth(q: Quorum, s: State, v: Vote, g: Hash)
    requires Watched(q, s) && v.txHash in s.candidates && v.outpoint in s.candidates[v.txHash].locks
    requires g != v.txHash && HasVote(Marked(s, v), g, v.outpoint, v.masternode)
    ensures Marked(s, v)[g].locks[v.outpoint].attacked && Marked(s, v)[v.txHash].locks[v.outpoint].attacked
  {
    MarkedNoVotes(s, v);
    assert HasVote(s.candidates, g, v.outpoint, v.masternode);
    assert VotedElsewhere(s, v, g);
  }

  lemma RecordedAndMarked(q: Quorum, s: State, v: Vote)
    requires Watched(q, s)
    ensures Watched(q, s.(candidates := Marked(s, v), voted := Recorded(s.voted, v.outpoint, v.txHash)))
  {
    hide Watched, NoNewVotes, Marked;
    MarkedNoVotes(s, v);
    StillWatched(q, s, s.(candidates := Marked(s, v), voted := Recorded(s.voted, v.outpoint, v.txHash)));
  }

  lemma CountedWatched(q: Quorum, s: State, v: Vote, u: State)
    requires Watched(q, s) && v.txHash in s.candidates && v.masternode in q(v.outpoint)
    requires u == s.(candidates := Marked(s, v), voted := Recorded(s.voted, v.outpoint, v.txHash))
    requires v.txHash in u.candidates && u.candidates[v.txHash].CanAdd(v)
    ensures Watched(q, u.(candidates := u.candidates[v.txHash := u.candidates[v.txHash].WithVote(v)]))
  {
    hide Watched, Marked, HasVote, Candidate.WithVote;
    RecordedAndMarked(q, s, v);
    SameOutpoints(s, v);
    forall g | g != v.txHash && HasVote(u.candidates, g, v.outpoint, v.masternode)
      ensures HasVote(u.candidates, g, v.outpoint, v.masternode) && g in u.candidates &&
                v.outpoint in u.candidates[g].locks
      ensures u.candidates[g].locks[v.outpoint].attacked && u.candidates[v.txHash].locks[v.outpoint].attacked
    {
      MarkedBoth(q, s, v, g);
      HasVoteMeans(u.candidates, g, v.outpoint, v.masternode);
    }
    VoteRecordedAndMarked(q, u, v.txHash, v);
  }

  lemma HasVoteMeans(cs: Candidates, h: Hash, o: OutPoint, m: OutPoint)
    requires HasVote(cs, h, o, m)
    ensures h in cs && o in cs[h].locks
  {}

  lemma SameOutpoints(s: State, v: Vote)
    requires v.txHash in s.candidates && v.outpoint in Marked(s, v)[v.txHash].locks
    ensures v.outpoint in s.candidates[v.txHash].locks
  {}

  lemma CountedSteady(q: Quorum, s: State, v: Vote, e: Env)
    requires Bounded(q) && Watched(q, s) && Inv(s) && v.txHash in s.candidates && v.masternode in q(v.outpoint)
    ensures Watched(q, Counted(s, v, e)) && Steady(s, Counted(s, v, e))
  {
    hide Watched, Formed, Backed, Bounded, Marked, Finalized, Grows, Recorded, FormedCandidate, GrowsAt,
         Candidate.WithVote, Candidate.IsAllOutPointsReady, Holds;
    MarkedKeeps(s, v);
    MarkedKeys(s, v);
    RecordedAndMarked(q, s, v);
    GrowingKeepsBacked(s.candidates, Marked(s, v), s.locked);
    var u := s.(candidates := Marked(s, v), voted := Recorded(s.voted, v.outpoint, v.txHash));
    var c := u.candidates[v.txHash];
    if c.CanAdd(v) {
      CountedWatched(q, s, v, u);
      FormedAt(u.candidates, v.txHash);
      WithVoteKeeps(v.txHash, c, v);
      Replaced(u.candidates, v.txHash, c.WithVote(v));
      var w := u.(candidates := u.candidates[v.txHash := c.WithVote(v)]);
      GrowingKeepsBacked(u.candidates, w.candidates, s.locked);
      GrowsAgain(s.candidates, u.candidates, w.candidates);
      if c.WithVote(v).IsAllOutPointsReady() { HeldIfReady(w, v.txHash); }
      FinalizedSteady(q, w, c.WithVote(v), e);
      SteadyAgain(s, w, Finalized(w, c.WithVote(v), e));
    }
  }

  lemma CastWatched(q: Quorum, s: State, h: Hash, o: OutPoint, m: OutPoint)
    requires Watched(q, s) && Inv(s) && h in s.candidates && !AlreadyVoted(s, o, m) && m in q(o)
    ensures Watched(q, Cast(s, h, o, m))
  {
    hide Entitled, DoubleMarked, Candidate.WithVote;
    var v := Vote(s.candidates[h].request.GetHash(), o, m);
    FormedAt(s.candidates, h);
    if s.candidates[h].CanAdd(v) {
      var u := s.(voted := Recorded(s.voted, o, h));
      assert Watched(q, u);
      forall g ensures !HasVote(s.candidates, g, o, m) {}
      VoteRecordedAndMarked(q, u, h, v);
    }
  }

  lemma CastSteady(q: Quorum, s: State, h: Hash, o: OutPoint, m: OutPoint)
    requires Watched(q, s) && Inv(s) && h in s.candidates && !AlreadyVoted(s, o, m) && m in q(o)
    ensures Watched(q, Cast(s, h, o, m)) && Inv(Cast(s, h, o, m)) && Steady(s, Cast(s, h, o, m))
    ensures h in Cast(s, h, o, m).candidates
  {
    hide Watched, Inv, Grows, AlreadyVoted;
    CastWatched(q, s, h, o, m);
    CastKeeps(s, h, o, m);
  }

  lemma {:induction false} VotedOnSteady(q: Quorum, s: State, h: Hash, m: OutPoint, order: seq<OutPoint>,
                                         ballot: OutPoint -> Ballot)
    requires Watched(q, s) && Inv(s) && h in s.candidates
    requires forall o :: o in order && ballot(o).CanSign? ==> m in q(o)
    ensures var u := VotedOn(s, h, m, order, ballot); Watched(q, u) && Inv(u) && Steady(s, u) && h in u.candidates
    decreases |order|
  {
    hide Watched, Inv, Steady, Cast, AlreadyVoted, ReadsPastMap;
    SteadySelf(s);
    if order != [] {
      var o := order[0];
      VotedOnSteady(q, s, h, m, order[1..], ballot);
      if !AlreadyVoted(s, o, m) && ballot(o).CanSign? {
        CastSteady(q, s, h, o, m);
        VotedOnSteady(q, Cast(s, h, o, m), h, m, order[1..], ballot);
        SteadyAgain(s, Cast(s, h, o, m), VotedOn(Cast(s, h, o, m), h, m, order[1..], ballot));
      }
    }
  }

  lemma SteadySelf(s: State)
    ensures Steady(s, s)
  {
    NothingGrows(s.candidates);
  }

  lemma OwnVotedSteady(q: Quorum, s: State, h: Hash, m: OutPoint, order: seq<OutPoint>, ballot: OutPoint -> Ballot,
                       e: Env)
    requires Bounded(q) && Watched(q, s) && Inv(s)
    requires forall o :: o in order && ballot(o).CanSign? ==> m in q(o)
    ensures Watched(q, OwnVoted(s, h, m, order, ballot, e)) && Steady(s, OwnVoted(s, h, m, order, ballot, e))
  {
    hide Watched, Inv, Steady, Bounded, VotedOn, Finalized, Holds, Candidate.IsAllOutPointsReady;
    SteadySelf(s);
    if h in s.candidates {
      VotedOnSteady(q, s, h, m, order, ballot);
      var u := if s.candidates[h].request.GetHash() in s.accepted then VotedOn(s, h, m, order, ballot) else s;
      if u.candidates[h].IsAllOutPointsReady() { HeldIfReady(u, h); }
      FinalizedSteady(q, u, u.candidates[h], e);
      SteadyAgain(s, u, Finalized(u, u.candidates[h], e));
    }
  }

  // ---- sweeps

  /** No outpoint of an expired candidate carries a vote of a candidate that stays. */
  ghost predicate ForgetsNoVote(s: State) {
    forall h, o, m :: HasVote(s.candidates, h, o, m) && !s.candidates[h].IsExpired(s.nCachedBlockHeight) ==>
      !Doomed(s.candidates, s.nCachedBlockHeight, o)
  }

  ghost predicate Sweeps(op: Op, e: Env) {
    op.CheckAndRemove? && e.synced
  }

  lemma VotesLeft(s: State, e: Env, h: Hash, o: OutPoint, m: OutPoint)
    requires e.synced
    ensures HasVote(Swept(s, e).candidates, h, o, m) <==>
              HasVote(s.candidates, h, o, m) && !s.candidates[h].IsExpired(s.nCachedBlockHeight)
    ensures HasVote(Swept(s, e).candidates, h, o, m) ==> Swept(s, e).candidates[h] == s.candidates[h]
  {}

  lemma SweptMarked(q: Quorum, s: State, e: Env)
    requires Watched(q, s)
    ensures DoubleMarked(Swept(s, e).candidates) && Entitled(q, Swept(s, e).candidates)
  {
    if e.synced {
      var u := Swept(s, e);
      hide HasVote, Swept, Doomed, Candidate.IsExpired;
      forall h, o, m ensures HasVote(u.candidates, h, o, m) ==>
          HasVote(s.candidates, h, o, m) && h in u.candidates && h in s.candidates && u.candidates[h] == s.candidates[h]
      {
        VotesLeft(s, e, h, o, m);
        if HasVote(u.candidates, h, o, m) {
          HasVoteMeans(u.candidates, h, o, m);
          HasVoteMeans(s.candidates, h, o, m);
        }
      }
    }
  }

  /** The record of who voted outlives a sweep if and only if the sweep forgets no vote that is still stored. */
  lemma SweepKeepsWatch(q: Quorum, s: State, e: Env)
    requires Watched(q, s)
    ensures Watched(q, Swept(s, e)) <==> (e.synced ==> ForgetsNoVote(s))
  {
    SweptMarked(q, s, e);
    if e.synced {
      var u := Swept(s, e);
      hide HasVote, DoubleMarked, Entitled, Candidate.IsExpired, Doomed;
      forall h, o, m
        ensures HasVote(u.candidates, h, o, m) <==>
                  HasVote(s.candidates, h, o, m) && h in s.candidates &&
                      !s.candidates[h].IsExpired(s.nCachedBlockHeight)
      {
        VotesLeft(s, e, h, o, m);
        if HasVote(s.candidates, h, o, m) { HasVoteMeans(s.candidates, h, o, m); }
      }
      if ForgetsNoVote(s) {
        assert AllRecorded(u.candidates, u.voted);
      } else {
        var h, o, m :| HasVote(s.candidates, h, o, m) && h in s.candidates &&
                       !s.candidates[h].IsExpired(s.nCachedBlockHeight) &&
                           Doomed(s.candidates, s.nCachedBlockHeight, o);
        assert HasVote(u.candidates, h, o, m) && o !in u.voted;
      }
    }
  }

  /** No expired candidate holds an outpoint of this one. */
  ghost predicate Spared(s: State, h: Hash) {
    h in s.candidates && forall o :: o in s.candidates[h].locks ==> !Doomed(s.candidates, s.nCachedBlockHeight, o)
  }

  /** A lock survives a sweep if and only if no expired candidate holds one of its outpoints. */
  lemma SweptLockedIff(s: State, e: Env, h: Hash)
    ensures IsLocked(Swept(s, e), h) <==> IsLocked(s, h) && (e.synced ==> Spared(s, h))
  {
    if e.synced && h in s.candidates {
      var c := s.candidates[h];
      if c.IsExpired(s.nCachedBlockHeight) {
        forall o | o in c.locks ensures Doomed(s.candidates, s.nCachedBlockHeight, o) {}
        if IsLocked(s, h) { var o :| o in c.locks; }
      }
    }
  }

  // ---- runs

  /** Only entitled masternodes get a vote past the validity checks, and no sweep forgets a vote still stored. */
  ghost predicate Proper(q: Quorum, s: State, op: Op, e: Env) {
    match op
    case LockVote(v, valid) => valid ==> v.masternode in q(v.outpoint)
    case OwnVote(h, m, order, ballot) => forall o :: o in order && ballot(o).CanSign? ==> m in q(o)
    case CheckAndRemove => e.synced ==> ForgetsNoVote(s)
    case _ => true
  }

  ghost predicate ProperRun(q: Quorum, ss: seq<State>, ops: seq<Op>, es: seq<Env>) {
    Bounded(q) && Run(ss, ops, es) && forall i :: 0 <= i < |ops| ==> Proper(q, ss[i], ops[i], es[i])
  }

  lemma ReconfirmedSteady(q: Quorum, s: State, h: Hash, nHeight: int)
    requires Watched(q, s) && Inv(s)
    ensures Watched(q, Confirmed(s, h, nHeight)) && Steady(s, Confirmed(s, h, nHeight))
  {
    hide Watched, Formed, Grows;
    SteadySelf(s);
    if h in s.candidates {
      FormedAt(s.candidates, h);
      Replaced(s.candidates, h, s.candidates[h].(nConfirmedHeight := nHeight));
      StillWatched(q, s, Confirmed(s, h, nHeight));
    }
  }

  lemma StepSteady(q: Quorum, s: State, op: Op, e: Env)
    requires Bounded(q) && Watched(q, s) && Inv(s) && Proper(q, s, op, e)
    ensures Watched(q, Next(s, op, e)) && Inv(Next(s, op, e))
    ensures !Sweeps(op, e) ==> Steady(s, Next(s, op, e))
  {
    NextKeeps(s, op, e);
    hide Inv, Steady, Bounded, Requested, Orphaned, Counted, OwnVoted, AllRecorded, DoubleMarked, Entitled,
         Confirmed, ForgetsNoVote, Doomed, DoomedRequest;
    SteadySelf(s);
    match op
    case LockRequest(r) => RequestedSteady(q, s, r, e);
    case LockVote(v, valid) =>
      if valid {
        if Waits(s, v) { OrphanedSteady(q, s, v, e); } else { CountedSteady(q, s, v, e); }
      }
    case OwnVote(h, m, order, ballot) => OwnVotedSteady(q, s, h, m, order, ballot, e);
    case SyncTransaction(h, nHeight) => ReconfirmedSteady(q, s, h, nHeight);
    case Accept(r) => SteadySame(s, Next(s, op, e));
    case Reject(r) => SteadySame(s, Next(s, op, e));
    case UpdatedBlockTip(nHeight) => SteadySame(s, Next(s, op, e));
    case CheckAndRemove => SweepKeepsWatch(q, s, e);
  }

  lemma SteadySame(s: State, u: State)
    requires u.candidates == s.candidates && u.locked == s.locked
    ensures Steady(s, u)
  {
    NothingGrows(s.candidates);
  }

  lemma {:induction false} EveryRunWatched(q: Quorum, ss: seq<State>, ops: seq<Op>, es: seq<Env>, k: nat)
    requires ProperRun(q, ss, ops, es) && k < |ss|
    ensures Watched(q, ss[k]) && Inv(ss[k])
  {
    EveryRunKeepsInv(ss, ops, es, k);
    if k > 0 {
      hide Inv, Watched, Bounded, Next, Proper;
      EveryRunWatched(q, ss, ops, es, k - 1);
      StepSteady(q, ss[k - 1], ops[k - 1], es[k - 1]);
    }
  }

  /** Two different candidates are never both ready on one outpoint. */
  lemma NeverBothReady(q: Quorum, ss: seq<State>, ops: seq<Op>, es: seq<Env>, k: nat, g: Hash, h: Hash, o: OutPoint)
    requires ProperRun(q, ss, ops, es) && k < |ss|
    requires g != h && g in ss[k].candidates && h in ss[k].candidates
    requires o in ss[k].candidates[g].locks && o in ss[k].candidates[h].locks
    ensures !ss[k].candidates[g].locks[o].IsReady() || !ss[k].candidates[h].locks[o].IsReady()
  {
    EveryRunWatched(q, ss, ops, es, k);
    hide Watched, Inv, Bounded, Next, Proper;
    if ss[k].candidates[g].locks[o].IsReady() { OnlyOneReady(q, ss[k], g, h, o); }
  }

  /** While a transaction is reported locked no other candidate is ready on any of its outpoints. */
  lemma LockedShutsOutOthers(q: Quorum, ss: seq<State>, ops: seq<Op>, es: seq<Env>, k: nat, h: Hash)
    requires ProperRun(q, ss, ops, es) && k < |ss| && IsLocked(ss[k], h)
    ensures ShutsOut(ss[k], h)
  {
    hide ShutsOut, IsLocked, Watched, Inv;
    EveryRunWatched(q, ss, ops, es, k);
    LockedShutsOut(q, ss[k], h);
  }

  /** What one step does to a lock. */
  lemma LockedStep(q: Quorum, s: State, op: Op, e: Env, h: Hash)
    requires Bounded(q) && Watched(q, s) && Inv(s) && Proper(q, s, op, e) && IsLocked(s, h)
    ensures IsLocked(Next(s, op, e), h) <==> (Sweeps(op, e) ==> Spared(s, h))
  {
    hide Inv, Watched, Bounded, Proper, IsLocked, Spared, Steady, Requested, Processed, OwnVoted, Confirmed, Swept;
    if Sweeps(op, e) {
      SweptLockedIff(s, e, h);
    } else {
      hide Next;
      StepSteady(q, s, op, e);
      StaysLocked(s, Next(s, op, e), h);
    }
  }

  lemma LockedNext(q: Quorum, ss: seq<State>, ops: seq<Op>, es: seq<Env>, i: nat, h: Hash)
    requires ProperRun(q, ss, ops, es) && i < |ops| && IsLocked(ss[i], h)
    ensures IsLocked(ss[i + 1], h) <==> (Sweeps(ops[i], es[i]) ==> Spared(ss[i], h))
  {
    hide Inv, Watched, Bounded, Proper, IsLocked, Spared, Sweeps, Next;
    EveryRunWatched(q, ss, ops, es, i);
    LockedStep(q, ss[i], ops[i], es[i], h);
  }

  /** Every sweep in the part of the run leaves this candidate's outpoints alone. */
  ghost predicate AlwaysSpared(ss: seq<State>, ops: seq<Op>, es: seq<Env>, j: nat, k: nat, h: Hash)
    requires j <= k < |ss| && |ss| == |ops| + 1 && |es| == |ops|
  {
    forall i :: j <= i < k && Sweeps(ops[i], es[i]) ==> Spared(ss[i], h)
  }

  /** A transaction reported locked stays so up to a point of the run if and only if no sweep until then meets an
      expired candidate on one of its outpoints. */
  lemma {:induction false} LockedForGood(
    q: Quorum, ss: seq<State>, ops: seq<Op>, es: seq<Env>, j: nat, k: nat, h: Hash)
    requires ProperRun(q, ss, ops, es) && j <= k < |ss| && IsLocked(ss[j], h)
    ensures (forall i :: j <= i <= k ==> IsLocked(ss[i], h)) <==> AlwaysSpared(ss, ops, es, j, k, h)
    decreases k - j
  {
    if j < k {
      hide ProperRun, IsLocked, Spared, Sweeps;
      LockedForGood(q, ss, ops, es, j, k - 1, h);
      if IsLocked(ss[k - 1], h) { LockedNext(q, ss, ops, es, k - 1, h); }
    }
  }

  lemma StaysLocked(s: State, u: State, h: Hash)
    requires Steady(s, u) && IsLocked(s, h)
    ensures IsLocked(u, h)
  {
    assert GrowsAt(s.candidates[h], u.candidates[h]);
  }

  ghost predicate ShutsOut(s: State, h: Hash)
    requires h in s.candidates
  {
    forall g, o :: g != h && g in s.candidates && o in s.candidates[g].locks && o in s.candidates[h].locks ==>
      !s.candidates[g].locks[o].IsReady()
  }

  lemma LockedShutsOut(q: Quorum, s: State, h: Hash)
    requires Bounded(q) && Watched(q, s) && Inv(s) && IsLocked(s, h)
    ensures ShutsOut(s, h)
  {
    hide Bounded, Watched, OutPointLock.IsReady;
    forall g, o | g != h && g in s.candidates && o in s.candidates[g].locks && o in s.candidates[h].locks
      ensures !s.candidates[g].locks[o].IsReady()
    {
      assert Backs(s.candidates, s.locked[o], o);
      OnlyOneReady(q, s, h, g, o);
    }
  }
}

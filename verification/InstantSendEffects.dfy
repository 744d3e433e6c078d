/** When a lock is completed and when it is not, by the transaction's inputs, the mempool and the coins. */
module InstantSendEffects {
  import opened InstantSendModel
  import opened InstantSendProofs

  // ---- the checks before a lock is completed

  /** No input is locked by another transaction or spent by another one in the mempool, and the transaction is in a
      block or its inputs are unspent. */
  ghost predicate Unhindered(s: State, h: Hash, vin: seq<OutPoint>, e: Env) {
    && (forall o :: o in vin && o in s.locked ==> s.locked[o] == h)
    && (forall o :: o in vin && o in e.mempool ==> e.mempool[o] == h)
    && (e.inBlock || forall o :: o in vin ==> o in e.utxo)
  }

  ghost predicate FreeAt(s: State, h: Hash, e: Env, o: OutPoint) {
    (o in s.locked ==> s.locked[o] == h) && (o in e.mempool ==> e.mempool[o] == h)
  }

  /** Input i is the first that stands in the way, and a completed lock is why. */
  ghost predicate ConflictFirst(s: State, h: Hash, vin: seq<OutPoint>, e: Env, i: int) {
    && 0 <= i < |vin| && vin[i] in s.locked && s.locked[vin[i]] != h
    && forall j :: 0 <= j < i ==> FreeAt(s, h, e, vin[j])
  }

  lemma {:induction false} ResolvedFrom(s: State, h: Hash, vin: seq<OutPoint>, i: nat, e: Env)
    requires i <= |vin| && forall j :: 0 <= j < i ==> FreeAt(s, h, e, vin[j])
    ensures var (u, ok) := Resolved(s, h, vin, i, e);
            && (ok <==> (forall j :: 0 <= j < |vin| ==> FreeAt(s, h, e, vin[j])) &&
                        (e.inBlock || forall o :: o in vin ==> o in e.utxo))
            && ((u == s && forall k :: !ConflictFirst(s, h, vin, e, k)) ||
                (exists k :: ConflictFirst(s, h, vin, e, k) && u == Dropped(s, h, s.locked[vin[k]], e)))
    decreases |vin| - i
  {
    hide Dropped;
    if i < |vin| {
      if ConflictsAt(s, h, vin[i]) {
        assert ConflictFirst(s, h, vin, e, i) && !FreeAt(s, h, e, vin[i]);
      } else if vin[i] in e.mempool && e.mempool[vin[i]] != h {
        assert !FreeAt(s, h, e, vin[i]);
      } else {
        ResolvedFrom(s, h, vin, i + 1, e);
      }
    }
  }

  /** ResolveConflicts lets a lock be completed if and only if nothing hinders it, and drops two candidates if and
      only if a completed lock on an input is the first thing it finds. */
  lemma ResolvedIff(s: State, h: Hash, vin: seq<OutPoint>, e: Env)
    ensures var (u, ok) := Resolved(s, h, vin, 0, e);
            && (ok <==> Unhindered(s, h, vin, e))
            && (ok ==> u == s)
            && ((u == s && forall k :: !ConflictFirst(s, h, vin, e, k)) ||
                (exists k :: ConflictFirst(s, h, vin, e, k) && u == Dropped(s, h, s.locked[vin[k]], e)))
  {
    hide Dropped, Resolved;
    ResolvedFrom(s, h, vin, 0, e);
    if forall j :: 0 <= j < |vin| ==> FreeAt(s, h, e, vin[j]) {
      forall o | o in vin ensures FreeAt(s, h, e, o) {
        var j :| 0 <= j < |vin| && vin[j] == o;
        assert FreeAt(s, h, e, vin[j]);
      }
      forall k ensures !ConflictFirst(s, h, vin, e, k) {
        if 0 <= k < |vin| { assert FreeAt(s, h, e, vin[k]); }
      }
    } else {
      var j :| 0 <= j < |vin| && !FreeAt(s, h, e, vin[j]);
      assert vin[j] in vin;
    }
  }

  /** Of two transactions that both completed a lock on one outpoint, both are rejected; past height 24 of a synced
      node both candidates go, with every lock and record of their outpoints. */
  lemma DroppedBoth(s: State, h: Hash, g: Hash, e: Env)
    requires h in s.candidates && g in s.candidates
    ensures var u := Dropped(s, h, g, e);
            && h in u.rejected && g in u.rejected
            && if e.synced && s.nCachedBlockHeight > 24 then
                 && h !in u.candidates && g !in u.candidates
                 && forall o :: o in s.candidates[h].locks || o in s.candidates[g].locks ==>
                      o !in u.locked && o !in u.voted
               else
                 h in u.candidates && g in u.candidates
  {
    var c1 := s.candidates[h := s.candidates[h].(nConfirmedHeight := 0)];
    var c2 := c1[g := c1[g].(nConfirmedHeight := 0)];
    var n := s.nCachedBlockHeight;
    assert c2[h].IsExpired(n) <==> n > 24;
    assert c2[g].IsExpired(n) <==> n > 24;
    if n > 24 {
      forall o | o in s.candidates[h].locks || o in s.candidates[g].locks ensures Doomed(c2, n, o) {
        if o in s.candidates[h].locks { assert c2[h].IsExpired(n) && o in c2[h].locks; }
      }
    }
  }

  // ---- completing

  ghost predicate AllReady(c: Candidate) {
    c.locks.Keys != {} && forall o :: o in c.locks ==> !c.locks[o].attacked && |c.locks[o].votes| >= 6
  }

  /** A candidate is locked afterwards if and only if it was, or every input has its quorum and nothing hinders. */
  lemma FinalizedIff(s: State, h: Hash, e: Env)
    requires Inv(s) && h in s.candidates && s.candidates[h].request.Request?
    ensures var c := s.candidates[h];
            && (IsLocked(s, h) ==> Finalized(s, c, e) == s)
            && (!IsLocked(s, h) ==>
                 (IsLocked(Finalized(s, c, e), h) <==> AllReady(c) && Unhindered(s, h, c.request.vin, e)))
  {
    var c := s.candidates[h];
    FormedAt(s.candidates, h);
    ResolvedIff(s, h, c.request.vin, e);
    hide Resolved, Formed, Backed, Unhindered, Dropped;
    assert c.IsAllOutPointsReady() <==> AllReady(c);
    if !IsLocked(s, h) && AllReady(c) {
      if Unhindered(s, h, c.request.vin, e) {
        CompletesEveryInput(s, c, e);
      } else {
        var u := Resolved(s, h, c.request.vin, 0, e).0;
        if u != s {
          var k :| ConflictFirst(s, h, c.request.vin, e, k) && u == Dropped(s, h, s.locked[c.request.vin[k]], e);
          DroppedUnlocked(s, h, c.request.vin, e, k);
        }
      }
    }
  }

  lemma DroppedUnlocked(s: State, h: Hash, vin: seq<OutPoint>, e: Env, k: int)
    requires Inv(s) && h in s.candidates && SetOf(vin) == s.candidates[h].locks.Keys && ConflictFirst(s, h, vin, e, k)
    ensures !IsLocked(Dropped(s, h, s.locked[vin[k]], e), h)
  {
    hide Formed, Backed;
    var o := vin[k];
    assert o in SetOf(vin);
    var u := Dropped(s, h, s.locked[o], e);
    assert o in u.locked ==> u.locked[o] == s.locked[o];
  }

  ghost function Voted(s: State, v: Vote): State
    requires v.txHash in s.candidates && s.candidates[v.txHash].CanAdd(v)
  {
    s.(candidates := s.candidates[v.txHash := s.candidates[v.txHash].WithVote(v)],
       voted := Recorded(s.voted, v.outpoint, v.txHash))
  }

  lemma VotedKeeps(s: State, v: Vote)
    requires Inv(s) && v.txHash in s.candidates && s.candidates[v.txHash].CanAdd(v)
    ensures Inv(Voted(s, v))
  {
    hide Formed, Backed, FormedCandidate, GrowsAt, Recorded, Candidate.WithVote;
    var h, c := v.txHash, s.candidates[v.txHash];
    FormedAt(s.candidates, h);
    WithVoteKeeps(h, c, v);
    Replaced(s.candidates, h, c.WithVote(v));
    GrowingKeepsBacked(s.candidates, Voted(s, v).candidates, s.locked);
  }

  lemma VoteCounted(s: State, v: Vote, e: Env)
    requires v.txHash in s.candidates && s.candidates[v.txHash].request.Request?
    requires var c := s.candidates[v.txHash]; c.CanAdd(v) && e.now <= c.nTimeCreated + 15
    requires forall g :: !VotedElsewhere(s, v, g)
    ensures Processed(s, v, true, e) == Finalized(Voted(s, v), Voted(s, v).candidates[v.txHash], e)
  {
    hide Finalized, Recorded, Marked, VotedElsewhere;
    NobodyMarked(s, v);
  }

  lemma ReadyWithVote(c: Candidate, v: Vote)
    requires c.CanAdd(v)
    ensures AllReady(c.WithVote(v)) <==> forall o :: o in c.locks ==>
              !c.locks[o].attacked && |c.locks[o].votes| + (if o == v.outpoint then 1 else 0) >= 6
  {
    var w := c.WithVote(v);
    assert w.locks.Keys == c.locks.Keys;
    assert |w.locks[v.outpoint].votes| == |c.locks[v.outpoint].votes| + 1;
    forall o | o in c.locks && o != v.outpoint ensures w.locks[o] == c.locks[o] {}
    assert v.outpoint in w.locks;
  }

  lemma LockedAlike(s: State, v: Vote)
    requires v.txHash in s.candidates && s.candidates[v.txHash].CanAdd(v)
    ensures IsLocked(Voted(s, v), v.txHash) <==> IsLocked(s, v.txHash)
  {
    hide Recorded;
    assert s.candidates[v.txHash].WithVote(v).locks.Keys == s.candidates[v.txHash].locks.Keys;
  }

  /** A counted vote of a masternode that voted for nothing else locks its transaction if and only if with this vote
      every input has its quorum and nothing hinders. */
  lemma VoteLocksIff(s: State, v: Vote, e: Env)
    requires Inv(s) && v.txHash in s.candidates && s.candidates[v.txHash].request.Request?
    requires var c := s.candidates[v.txHash]; c.CanAdd(v) && e.now <= c.nTimeCreated + 15
    requires !IsLocked(s, v.txHash) && forall g :: !VotedElsewhere(s, v, g)
    ensures var c := s.candidates[v.txHash];
            IsLocked(Processed(s, v, true, e), v.txHash) <==>
              && Unhindered(s, v.txHash, c.request.vin, e)
              && forall o :: o in c.locks ==>
                   !c.locks[o].attacked && |c.locks[o].votes| + (if o == v.outpoint then 1 else 0) >= 6
  {
    hide Inv, Finalized, Processed, IsLocked, AllReady, Recorded, VotedElsewhere;
    VotedKeeps(s, v);
    VoteCounted(s, v, e);
    LockedAlike(s, v);
    ReadyWithVote(s.candidates[v.txHash], v);
    FinalizedIff(Voted(s, v), v.txHash, e);
  }

  lemma NobodyMarked(s: State, v: Vote)
    requires forall g :: !VotedElsewhere(s, v, g)
    ensures Marked(s, v) == s.candidates
  {}

  // ---- every run

  /** The transaction is filed with all its inputs locked, nothing else in the pool spends one of them, and it is in a
      block or they are unspent. */
  ghost predicate Rightful(t: State, h: Hash, e: Env) {
    && IsLocked(t, h) && t.candidates[h].request.Request? && AllReady(t.candidates[h])
    && t.candidates[h].locks.Keys == SetOf(t.candidates[h].request.vin)
    && var vin := t.candidates[h].request.vin;
       && (forall o :: o in vin && o in e.mempool ==> e.mempool[o] == h)
       && (e.inBlock || forall o :: o in vin ==> o in e.utxo)
  }

  /** What is locked in t was so in s, or is locked rightfully. */
  ghost predicate LocksRightfully(s: State, t: State, e: Env) {
    forall o :: o in t.locked ==> (o in s.locked && s.locked[o] == t.locked[o]) || Rightful(t, t.locked[o], e)
  }

  lemma FinalizedRightfully(s: State, c: Candidate, e: Env)
    requires Inv(s) && (c.IsAllOutPointsReady() ==> Holds(s, c))
    ensures LocksRightfully(s, Finalized(s, c, e), e)
  {
    var h, vin := c.request.GetHash(), c.request.Inputs();
    if c.IsAllOutPointsReady() && !IsLocked(s, h) {
      ResolvedIff(s, h, vin, e);
      if Unhindered(s, h, vin, e) {
        CompletesEveryInput(s, c, e);
        FormedAt(s.candidates, h);
        LockedRightfully(s, c, e);
      } else {
        NoNewLocks(s, c, e);
      }
    }
  }

  lemma LockedRightfully(s: State, c: Candidate, e: Env)
    requires Holds(s, c) && c.IsAllOutPointsReady() && c.request.Request?
    requires IsLocked(LockInputs(s, c), c.request.txHash)
    requires c.locks.Keys == SetOf(c.request.vin) && Unhindered(s, c.request.txHash, c.request.vin, e)
    ensures LocksRightfully(s, LockInputs(s, c), e)
  {
    hide IsLocked;
    var t := LockInputs(s, c);
    assert AllReady(c);
    assert Rightful(t, c.request.txHash, e);
  }

  lemma NoNewLocks(s: State, c: Candidate, e: Env)
    requires c.IsAllOutPointsReady() && !IsLocked(s, c.request.GetHash())
    requires !Unhindered(s, c.request.GetHash(), c.request.Inputs(), e)
    ensures LocksRightfully(s, Finalized(s, c, e), e)
  {
    var h, vin := c.request.GetHash(), c.request.Inputs();
    ResolvedIff(s, h, vin, e);
    hide Resolved, Unhindered, Rightful, Candidate.IsAllOutPointsReady;
  }

  lemma RequestedRightfully(s: State, r: Request, e: Env)
    requires Inv(s)
    ensures LocksRightfully(s, Requested(s, r, e), e)
  {
    hide Created, Formed, Backed, Finalized, Candidate.IsAllOutPointsReady, Holds, Rightful;
    CreatedKeeps(s.candidates, r, e);
    var u := s.(candidates := Created(s.candidates, r, e));
    GrowingKeepsBacked(s.candidates, u.candidates, s.locked);
    if CreateSucceeds(s.candidates, r, e) {
      var c := u.candidates[r.txHash];
      if c.IsAllOutPointsReady() { HeldIfReady(u, r.txHash); }
      FinalizedRightfully(u, c, e);
    }
  }

  lemma OrphanedRightfully(s: State, v: Vote, e: Env)
    requires Inv(s)
    ensures LocksRightfully(s, Orphaned(s, v, e), e)
  {
    hide CreatedEmpty, Requested, Formed, Backed, EnoughOrphansFor, Rightful;
    CreatedEmptyKeeps(s.candidates, v.txHash, e);
    var u := s.(candidates := CreatedEmpty(s.candidates, v.txHash, e), orphans := s.orphans + {v});
    GrowingKeepsBacked(s.candidates, u.candidates, s.locked);
    if Known(s, v.txHash) { RequestedRightfully(u, RequestOf(s, v.txHash), e); }
  }

  lemma CountedRightfully(s: State, v: Vote, e: Env)
    requires Inv(s) && v.txHash in s.candidates
    ensures LocksRightfully(s, Counted(s, v, e), e)
  {
    hide Marked, Formed, Backed, Finalized, Candidate.WithVote, Candidate.IsAllOutPointsReady, Holds, Recorded,
         FormedCandidate, GrowsAt, Rightful;
    MarkedKeeps(s, v);
    GrowingKeepsBacked(s.candidates, Marked(s, v), s.locked);
    MarkedKeys(s, v);
    var u := s.(candidates := Marked(s, v), voted := Recorded(s.voted, v.outpoint, v.txHash));
    var c := u.candidates[v.txHash];
    if c.CanAdd(v) {
      FormedAt(u.candidates, v.txHash);
      WithVoteKeeps(v.txHash, c, v);
      Replaced(u.candidates, v.txHash, c.WithVote(v));
      var w := u.(candidates := u.candidates[v.txHash := c.WithVote(v)]);
      GrowingKeepsBacked(u.candidates, w.candidates, s.locked);
      if c.WithVote(v).IsAllOutPointsReady() { HeldIfReady(w, v.txHash); }
      FinalizedRightfully(w, c.WithVote(v), e);
    }
  }

  lemma {:induction false} VotedOnLocksNothing(s: State, h: Hash, m: OutPoint, order: seq<OutPoint>,
                                               ballot: OutPoint -> Ballot)
    requires Inv(s) && h in s.candidates
    ensures VotedOn(s, h, m, order, ballot).locked == s.locked
    decreases |order|
  {
    hide Inv, AlreadyVoted, ReadsPastMap, Recorded, Candidate.WithVote;
    if order != [] {
      VotedOnLocksNothing(s, h, m, order[1..], ballot);
      CastKeeps(s, h, order[0], m);
      VotedOnLocksNothing(Cast(s, h, order[0], m), h, m, order[1..], ballot);
    }
  }

  lemma OwnVotedRightfully(s: State, h: Hash, m: OutPoint, order: seq<OutPoint>, ballot: OutPoint -> Ballot, e: Env)
    requires Inv(s)
    ensures LocksRightfully(s, OwnVoted(s, h, m, order, ballot, e), e)
  {
    hide Inv, VotedOn, Finalized, Holds, Candidate.IsAllOutPointsReady, Rightful, OwnVoteDefined;
    if h in s.candidates {
      VotedOnKeeps(s, h, m, order, ballot);
      VotedOnLocksNothing(s, h, m, order, ballot);
      var u := if s.candidates[h].request.GetHash() in s.accepted then VotedOn(s, h, m, order, ballot) else s;
      if u.candidates[h].IsAllOutPointsReady() { HeldIfReady(u, h); }
      FinalizedRightfully(u, u.candidates[h], e);
    }
  }

  lemma NextRightfully(s: State, op: Op, e: Env)
    requires Inv(s)
    ensures LocksRightfully(s, Next(s, op, e), e)
  {
    hide Inv, Requested, Orphaned, Counted, OwnVoted, Rightful;
    match op
    case LockRequest(r) => RequestedRightfully(s, r, e);
    case LockVote(v, valid) =>
      if valid {
        if Waits(s, v) { OrphanedRightfully(s, v, e); } else { CountedRightfully(s, v, e); }
      }
    case OwnVote(h, m, order, ballot) => OwnVotedRightfully(s, h, m, order, ballot, e);
    case _ =>
  }

  /** Whenever an outpoint becomes locked in a run, its transaction has all its inputs locked with six votes each, no
      other transaction in the mempool spends any of them, and it is in a block or they are all unspent. */
  lemma LockedRightfullyInEveryRun(ss: seq<State>, ops: seq<Op>, es: seq<Env>, k: nat, o: OutPoint)
    requires Run(ss, ops, es) && k < |ops| && o in ss[k + 1].locked
    requires !(o in ss[k].locked && ss[k].locked[o] == ss[k + 1].locked[o])
    ensures Rightful(ss[k + 1], ss[k + 1].locked[o], es[k])
  {
    hide Next, Rightful;
    EveryRunKeepsInv(ss, ops, es, k);
    NextRightfully(ss[k], ops[k], es[k]);
  }

  // ---- time

  /** A sweep of a synced node removes exactly the candidates confirmed more than 24 blocks ago. */
  lemma SweptAfter24(s: State, e: Env, h: Hash)
    requires e.synced && h in s.candidates
    ensures h in Swept(s, e).candidates <==>
              s.candidates[h].nConfirmedHeight == -1 || s.nCachedBlockHeight <= s.candidates[h].nConfirmedHeight + 24
  {}

  /** A vote on a known transaction counts if and only if it comes within 15 seconds of the candidate, names one of
      its inputs and is its masternode's first on it. */
  lemma AcceptedIff(s: State, v: Vote, valid: bool, e: Env)
    requires Inv(s) && v.txHash in s.candidates && s.candidates[v.txHash].request.Request?
    requires s.candidates[v.txHash].locks.Keys != {}
    ensures var c := s.candidates[v.txHash];
            VoteAccepted(s, v, valid, e) <==>
              && valid && e.now <= c.nTimeCreated + 15 && v.outpoint in c.request.vin
              && v.masternode !in c.locks[v.outpoint].votes
  {
    FormedAt(s.candidates, v.txHash);
    var vin := s.candidates[v.txHash].request.vin;
    assert v.outpoint in SetOf(vin) <==> v.outpoint in vin;
  }

  ghost predicate Outlived(s: State, h: Hash) {
    && h in s.candidates && s.candidates[h].request.Request? && s.candidates[h].nConfirmedHeight != -1
    && s.nCachedBlockHeight > s.candidates[h].nConfirmedHeight + 24
  }

  /** It forgets exactly their requests, accepted or rejected. The hash 0 stands for candidates without a request. */
  lemma SweptRequests(s: State, e: Env, h: Hash)
    requires Inv(s) && e.synced && h != 0
    ensures h in Swept(s, e).accepted <==> h in s.accepted && !Outlived(s, h)
    ensures h in Swept(s, e).rejected <==> h in s.rejected && !Outlived(s, h)
  {
    var n := s.nCachedBlockHeight;
    if DoomedRequest(s.candidates, n, h) {
      var g :| g in s.candidates && s.candidates[g].IsExpired(n) && s.candidates[g].request.GetHash() == h;
      FormedAt(s.candidates, g);
    }
    if Outlived(s, h) {
      FormedAt(s.candidates, h);
      assert s.candidates[h].IsExpired(n) && s.candidates[h].request.GetHash() == h;
    }
  }

  /** A valid request is filed with every input, none of them voted on yet, unless early votes made its candidate more
      than 15 seconds ago, which then never gets any; a request that was there stays. */
  lemma RequestFiled(s: State, r: Request, e: Env)
    requires Inv(s) && e.requestIsValid && r.Request?
    ensures var t := Created(s.candidates, r, e);
            && r.txHash in t && t[r.txHash].request.Request?
            && (forall h :: h in s.candidates && h != r.txHash ==> h in t && t[h] == s.candidates[h])
            && if r.txHash in s.candidates && s.candidates[r.txHash].request.Request? then t == s.candidates
               else
                 var late := r.txHash in s.candidates && e.now > s.candidates[r.txHash].nTimeCreated + 15;
                 && t[r.txHash].request == r && (CreateSucceeds(s.candidates, r, e) <==> !late)
                 && t[r.txHash].locks.Keys == (if late then {} else SetOf(r.vin))
                 && forall o :: o in t[r.txHash].locks ==> t[r.txHash].locks[o] == OutPointLock(map[], false)
  {
    if r.txHash in s.candidates { FormedAt(s.candidates, r.txHash); }
  }

  // ---- this node's own votes

  /** Going through the outpoints ends here: it is not in the coins, the source reads past the map, or the vote cannot
      be signed. */
  ghost predicate EndsAt(s: State, m: OutPoint, ballot: OutPoint -> Ballot, o: OutPoint) {
    || ballot(o).NoUtxo?
    || (!ballot(o).NotRanked? && ReadsPastMap(s, o, m))
    || (ballot(o).CannotSign? && !AlreadyVoted(s, o, m))
  }

  /** The two states agree on everything about an outpoint that the node's votes depend on. */
  ghost predicate AlikeAt(s: State, t: State, o: OutPoint) {
    && s.candidates.Keys == t.candidates.Keys && (o in s.voted <==> o in t.voted)
    && (o in s.voted ==> s.voted[o] == t.voted[o])
    && forall g :: g in s.candidates ==> (o in s.candidates[g].locks <==> o in t.candidates[g].locks)
                                         && (o in s.candidates[g].locks ==>
                                              s.candidates[g].locks[o] == t.candidates[g].locks[o])
  }

  lemma CastAside(s: State, h: Hash, p: OutPoint, m: OutPoint, o: OutPoint)
    requires h in s.candidates && o != p
    ensures AlikeAt(s, Cast(s, h, p, m), o)
  {}

  lemma AlikeReads(s: State, t: State, m: OutPoint, ballot: OutPoint -> Ballot, o: OutPoint)
    requires AlikeAt(s, t, o)
    ensures AlreadyVoted(s, o, m) == AlreadyVoted(t, o, m) && ReadsPastMap(s, o, m) == ReadsPastMap(t, o, m)
    ensures EndsAt(s, m, ballot, o) == EndsAt(t, m, ballot, o)
    ensures forall g :: g in s.candidates ==>
              s.candidates[g].HasMasternodeVoted(o, m) == t.candidates[g].HasMasternodeVoted(o, m)
  {
    forall g | g in s.candidates
      ensures s.candidates[g].HasMasternodeVoted(o, m) == t.candidates[g].HasMasternodeVoted(o, m) {}
    if ReadsPastMap(s, o, m) {
      var g :| g in s.voted[o] && g !in s.candidates && NoneBelow(s, o, m, g);
      assert NoneBelow(t, o, m, g);
    }
    if ReadsPastMap(t, o, m) {
      var g :| g in t.voted[o] && g !in t.candidates && NoneBelow(t, o, m, g);
      assert NoneBelow(s, o, m, g);
    }
  }

  ghost predicate Reaches(s: State, m: OutPoint, order: seq<OutPoint>, ballot: OutPoint -> Ballot, i: int)
    requires i < |order|
  {
    forall j :: 0 <= j <= i ==> !EndsAt(s, m, ballot, order[j])
  }

  ghost predicate VotesAt(s: State, h: Hash, m: OutPoint, ballot: OutPoint -> Ballot, o: OutPoint)
    requires h in s.candidates
  {
    o in s.candidates[h].locks && ballot(o).CanSign? && !AlreadyVoted(s, o, m)
  }

  ghost predicate Distinct(order: seq<OutPoint>) {
    forall i, j :: 0 <= i < j < |order| ==> order[i] != order[j]
  }

  /** One outpoint done: what is still to come is as before. */
  lemma {:induction false} AlikeReaches(s: State, t: State, m: OutPoint, order: seq<OutPoint>,
                                        ballot: OutPoint -> Ballot, i: nat)
    requires i < |order| && forall j :: 0 <= j <= i ==> AlikeAt(s, t, order[j])
    ensures Reaches(s, m, order, ballot, i) == Reaches(t, m, order, ballot, i)
  {
    hide AlikeAt, EndsAt;
    forall j | 0 <= j <= i ensures EndsAt(s, m, ballot, order[j]) == EndsAt(t, m, ballot, order[j]) {
      AlikeReads(s, t, m, ballot, order[j]);
    }
  }

  lemma {:induction false} NotOnOthers(s: State, h: Hash, m: OutPoint, order: seq<OutPoint>,
                                       ballot: OutPoint -> Ballot, o: OutPoint)
    requires h in s.candidates && o !in order
    ensures AlikeAt(s, VotedOn(s, h, m, order, ballot), o)
    decreases |order|
  {
    hide AlreadyVoted, ReadsPastMap, Cast;
    if order != [] {
      NotOnOthers(s, h, m, order[1..], ballot, o);
      CastAside(s, h, order[0], m, o);
      NotOnOthers(Cast(s, h, order[0], m), h, m, order[1..], ballot, o);
    }
  }

  ghost predicate HasVoted(s: State, h: Hash, m: OutPoint, o: OutPoint) {
    h in s.candidates && s.candidates[h].HasMasternodeVoted(o, m)
  }

  lemma CastVotes(s: State, h: Hash, o: OutPoint, m: OutPoint)
    requires h in s.candidates
    ensures HasVoted(Cast(s, h, o, m), h, m, o) <==> o in s.candidates[h].locks
  {}

  /** The first outpoint of the order. */
  lemma OwnVoteFirst(s: State, h: Hash, m: OutPoint, order: seq<OutPoint>, ballot: OutPoint -> Ballot)
    requires h in s.candidates && order != [] && Distinct(order)
    ensures HasVoted(VotedOn(s, h, m, order, ballot), h, m, order[0]) <==>
              HasVoted(s, h, m, order[0]) ||
              (!EndsAt(s, m, ballot, order[0]) && VotesAt(s, h, m, ballot, order[0]))
  {
    hide AlreadyVoted, ReadsPastMap, Cast, AlikeAt;
    var o, rest := order[0], order[1..];
    assert o !in rest;
    NotOnOthers(s, h, m, rest, ballot, o);
    AlikeReads(s, VotedOn(s, h, m, rest, ballot), m, ballot, o);
    CastVotes(s, h, o, m);
    var u := Cast(s, h, o, m);
    assert h in u.candidates by { CastKeys(s, h, o, m); }
    NotOnOthers(u, h, m, rest, ballot, o);
    AlikeReads(u, VotedOn(u, h, m, rest, ballot), m, ballot, o);
    VotedOnKeys(s, h, m, rest, ballot);
    VotedOnKeys(u, h, m, rest, ballot);
  }

  lemma CastKeys(s: State, h: Hash, o: OutPoint, m: OutPoint)
    requires h in s.candidates
    ensures h in Cast(s, h, o, m).candidates
  {}

  lemma {:induction false} VotedOnKeys(s: State, h: Hash, m: OutPoint, order: seq<OutPoint>,
                                       ballot: OutPoint -> Ballot)
    requires h in s.candidates
    ensures h in VotedOn(s, h, m, order, ballot).candidates
    decreases |order|
  {
    hide AlreadyVoted, ReadsPastMap, Cast;
    if order != [] {
      VotedOnKeys(s, h, m, order[1..], ballot);
      CastKeys(s, h, order[0], m);
      VotedOnKeys(Cast(s, h, order[0], m), h, m, order[1..], ballot);
    }
  }

  /** The state with which the rest of the order is gone through. */
  ghost function AfterFirst(s: State, h: Hash, m: OutPoint, o: OutPoint, ballot: OutPoint -> Ballot): State
    requires h in s.candidates
  {
    if ballot(o).NotRanked? || AlreadyVoted(s, o, m) then s else Cast(s, h, o, m)
  }

  lemma FirstStep(s: State, h: Hash, m: OutPoint, order: seq<OutPoint>, ballot: OutPoint -> Ballot)
    requires h in s.candidates && order != []
    ensures EndsAt(s, m, ballot, order[0]) ==> VotedOn(s, h, m, order, ballot) == s
    ensures var u := AfterFirst(s, h, m, order[0], ballot);
            && h in u.candidates
            && (!EndsAt(s, m, ballot, order[0]) ==>
                 VotedOn(s, h, m, order, ballot) == VotedOn(u, h, m, order[1..], ballot))
  {
    CastKeys(s, h, order[0], m);
    hide AlreadyVoted, ReadsPastMap, Cast;
  }

  lemma AfterFirstAlike(s: State, h: Hash, m: OutPoint, p: OutPoint, ballot: OutPoint -> Ballot, o: OutPoint)
    requires h in s.candidates && o != p
    ensures AlikeAt(s, AfterFirst(s, h, m, p, ballot), o)
  {
    hide AlreadyVoted, Cast;
    CastAside(s, h, p, m, o);
  }

  /** The node votes on an outpoint if and only if it reaches it, is ranked for it and can sign, the candidate spends
      it and the masternode has not voted on it for any transaction. */
  lemma {:induction false} OwnVotesIff(s: State, h: Hash, m: OutPoint, order: seq<OutPoint>,
                                       ballot: OutPoint -> Ballot, i: nat)
    requires h in s.candidates && i < |order| && Distinct(order)
    ensures HasVoted(VotedOn(s, h, m, order, ballot), h, m, order[i]) <==>
              HasVoted(s, h, m, order[i]) ||
              (Reaches(s, m, order, ballot, i) && VotesAt(s, h, m, ballot, order[i]))
    decreases |order|
  {
    hide AlreadyVoted, VotedOn, EndsAt, AlikeAt, AfterFirst;
    if i == 0 {
      OwnVoteFirst(s, h, m, order, ballot);
    } else {
      var u, rest := AfterFirst(s, h, m, order[0], ballot), order[1..];
      FirstStep(s, h, m, order, ballot);
      ReachesRest(s, m, order, ballot, i);
      if !EndsAt(s, m, ballot, order[0]) {
        forall j | 0 <= j <= i - 1 ensures AlikeAt(s, u, rest[j]) {
          AfterFirstAlike(s, h, m, order[0], ballot, rest[j]);
        }
        assert rest[i - 1] == order[i];
        AlikeReads(s, u, m, ballot, order[i]);
        AlikeLocks(s, u, h, order[i]);
        AlikeReaches(s, u, m, rest, ballot, i - 1);
        OwnVotesIff(u, h, m, rest, ballot, i - 1);
      }
    }
  }

  lemma AlikeLocks(s: State, t: State, h: Hash, o: OutPoint)
    requires AlikeAt(s, t, o) && h in s.candidates
    ensures h in t.candidates && (o in s.candidates[h].locks <==> o in t.candidates[h].locks)
  {}

  lemma ReachesRest(s: State, m: OutPoint, order: seq<OutPoint>, ballot: OutPoint -> Ballot, i: nat)
    requires 0 < i < |order|
    ensures Reaches(s, m, order, ballot, i) <==>
              !EndsAt(s, m, ballot, order[0]) && Reaches(s, m, order[1..], ballot, i - 1)
  {
    hide EndsAt;
    forall j | 1 <= j <= i ensures order[j] == order[1..][j - 1] {}
    forall j | 0 <= j <= i - 1 ensures order[1..][j] == order[j + 1] {}
  }
}

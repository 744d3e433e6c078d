/** When a node's own vote looks up only candidates that are still there: exactly when, in which runs always, and
    a run in which it does not. */
module InstantSendLookup {
  import opened InstantSendModel
  import opened InstantSendProofs

  // ---- one call

  ghost predicate AllLiveAt(s: State, o: OutPoint) {
    o in s.voted ==> s.voted[o] <= s.candidates.Keys
  }

  lemma {:induction false} LowestGone(hashes: set<Hash>, live: set<Hash>) returns (g: Hash)
    requires !(hashes <= live)
    ensures g in hashes && g !in live && forall k :: k in hashes && k < g ==> k in live
    decreases |hashes|
  {
    g :| g in hashes && g !in live;
    if k :| k in hashes && k < g && k !in live {
      var below := set k | k in hashes && k < g;
      assert below < hashes by { assert g !in below; }
      Smaller(below, hashes);
      assert k in below;
      g := LowestGone(below, live);
    }
  }

  lemma Smaller(a: set<Hash>, b: set<Hash>)
    requires a < b
    ensures |a| < |b|
  {
    assert b == a + (b - a);
    assert b - a != {};
  }

  /** A masternode without a vote on the outpoint reads past the map if and only if some hash voted for the outpoint
      has lost its candidate; with a vote on it, only if such a hash comes before the one it voted for. */
  lemma ReadsPastMapIff(s: State, o: OutPoint, m: OutPoint)
    ensures AllLiveAt(s, o) ==> !ReadsPastMap(s, o, m)
    ensures !AlreadyVoted(s, o, m) ==> (ReadsPastMap(s, o, m) <==> !AllLiveAt(s, o))
  {
    if !AlreadyVoted(s, o, m) && !AllLiveAt(s, o) {
      var g := LowestGone(s.voted[o], s.candidates.Keys);
      assert NoneBelow(s, o, m, g);
    }
  }

  /** Nothing before the i-th outpoint ends the loop. */
  ghost predicate Reached(s: State, m: OutPoint, order: seq<OutPoint>, ballot: OutPoint -> Ballot, i: nat)
    requires i <= |order|
  {
    forall j :: 0 <= j < i ==> GoesOn(s, m, order[j], ballot)
  }

  ghost predicate GoesOn(s: State, m: OutPoint, o: OutPoint, ballot: OutPoint -> Ballot) {
    ballot(o).NotRanked? || ballot(o).CanSign? || (ballot(o).CannotSign? && AlreadyVoted(s, o, m))
  }

  predicate Ranked(b: Ballot) { b.CanSign? || b.CannotSign? }

  ghost predicate LiveWhereReached(s: State, m: OutPoint, order: seq<OutPoint>, ballot: OutPoint -> Ballot) {
    forall i :: 0 <= i < |order| && Reached(s, m, order, ballot, i) && Ranked(ballot(order[i])) ==>
      !ReadsPastMap(s, order[i], m)
  }

  ghost predicate Distinct(order: seq<OutPoint>) {
    forall i, j :: 0 <= i < j < |order| ==> order[i] != order[j]
  }

  /** A vote on one outpoint leaves the look-ups for the others as they were. */
  lemma CastElsewhere(s: State, h: Hash, o: OutPoint, m: OutPoint, p: OutPoint)
    requires h in s.candidates && p != o
    ensures AlreadyVoted(Cast(s, h, o, m), p, m) == AlreadyVoted(s, p, m)
    ensures ReadsPastMap(Cast(s, h, o, m), p, m) == ReadsPastMap(s, p, m)
  {
    var u := Cast(s, h, o, m);
    assert u.candidates.Keys == s.candidates.Keys;
    assert p in u.voted <==> p in s.voted;
    assert p in s.voted ==> u.voted[p] == s.voted[p];
    forall g | g in s.candidates
      ensures u.candidates[g].HasMasternodeVoted(p, m) == s.candidates[g].HasMasternodeVoted(p, m)
    {}
    if p in s.voted {
      forall g ensures NoneBelow(u, p, m, g) == NoneBelow(s, p, m, g) {}
    }
  }

  /** Two states in which the look-ups for these outpoints come out the same. */
  ghost predicate SameLookups(s: State, u: State, m: OutPoint, order: seq<OutPoint>) {
    forall p :: p in order ==>
      AlreadyVoted(u, p, m) == AlreadyVoted(s, p, m) && ReadsPastMap(u, p, m) == ReadsPastMap(s, p, m)
  }

  lemma SameWhereReached(s: State, u: State, m: OutPoint, order: seq<OutPoint>, ballot: OutPoint -> Ballot)
    requires SameLookups(s, u, m, order)
    ensures LiveWhereReached(u, m, order, ballot) == LiveWhereReached(s, m, order, ballot)
  {
    hide AlreadyVoted, ReadsPastMap;
    forall j | 0 <= j < |order| ensures GoesOn(u, m, order[j], ballot) == GoesOn(s, m, order[j], ballot) {
      assert order[j] in order;
    }
    forall i | 0 <= i < |order| ensures Reached(u, m, order, ballot, i) == Reached(s, m, order, ballot, i) {}
    forall i | 0 <= i < |order| ensures ReadsPastMap(u, order[i], m) == ReadsPastMap(s, order[i], m) {
      assert order[i] in order;
    }
  }

  lemma FirstThenRest(s: State, m: OutPoint, order: seq<OutPoint>, ballot: OutPoint -> Ballot)
    requires order != []
    ensures LiveWhereReached(s, m, order, ballot) <==>
              && (Ranked(ballot(order[0])) ==> !ReadsPastMap(s, order[0], m))
              && (GoesOn(s, m, order[0], ballot) ==> LiveWhereReached(s, m, order[1..], ballot))
  {
    hide AlreadyVoted, ReadsPastMap, GoesOn;
    var rest := order[1..];
    forall i | 0 <= i < |rest|
      ensures Reached(s, m, order, ballot, i + 1) <==>
                GoesOn(s, m, order[0], ballot) && Reached(s, m, rest, ballot, i)
    {
      ReachedRest(s, m, order, ballot, i);
    }
    forall i | 0 <= i < |rest| ensures rest[i] == order[i + 1] {}
    assert Reached(s, m, order, ballot, 0);
    if LiveWhereReached(s, m, order, ballot) && GoesOn(s, m, order[0], ballot) {
      forall i | 0 <= i < |rest| && Reached(s, m, rest, ballot, i) && Ranked(ballot(rest[i]))
        ensures !ReadsPastMap(s, rest[i], m)
      {
        assert Reached(s, m, order, ballot, i + 1);
      }
    }
    if (Ranked(ballot(order[0])) ==> !ReadsPastMap(s, order[0], m)) &&
       (GoesOn(s, m, order[0], ballot) ==> LiveWhereReached(s, m, rest, ballot)) {
      forall i | 0 <= i < |order| && Reached(s, m, order, ballot, i) && Ranked(ballot(order[i]))
        ensures !ReadsPastMap(s, order[i], m)
      {
        if i > 0 { assert Reached(s, m, order, ballot, (i - 1) + 1); assert rest[i - 1] == order[i]; }
      }
    }
  }

  lemma ReachedRest(s: State, m: OutPoint, order: seq<OutPoint>, ballot: OutPoint -> Ballot, i: nat)
    requires order != [] && i < |order[1..]|
    ensures Reached(s, m, order, ballot, i + 1) <==>
              GoesOn(s, m, order[0], ballot) && Reached(s, m, order[1..], ballot, i)
  {
    hide GoesOn;
    var rest := order[1..];
    if GoesOn(s, m, order[0], ballot) && Reached(s, m, rest, ballot, i) {
      forall j | 0 <= j < i + 1 ensures GoesOn(s, m, order[j], ballot) {
        if j > 0 { assert rest[j - 1] == order[j]; }
      }
    }
    if Reached(s, m, order, ballot, i + 1) {
      forall j | 0 <= j < i ensures GoesOn(s, m, rest[j], ballot) { assert rest[j] == order[j + 1]; }
    }
  }

  /** The node's vote looks up only candidates that are there if and only if, before the call, no ranked outpoint it
      gets to reads past the map. */
  lemma {:induction false} LooksUpLiveIff(
    s: State, h: Hash, m: OutPoint, order: seq<OutPoint>, ballot: OutPoint -> Ballot)
    requires h in s.candidates && Distinct(order)
    ensures LooksUpLive(s, h, m, order, ballot) <==> LiveWhereReached(s, m, order, ballot)
    decreases |order|
  {
    if order != [] {
      hide AlreadyVoted, ReadsPastMap, Cast, LiveWhereReached;
      var o, rest := order[0], order[1..];
      FirstThenRest(s, m, order, ballot);
      LooksUpLiveIff(s, h, m, rest, ballot);
      if ballot(o).CanSign? {
        var u := Cast(s, h, o, m);
        StillThere(s, h, o, m);
        forall p | p in rest
          ensures AlreadyVoted(u, p, m) == AlreadyVoted(s, p, m) && ReadsPastMap(u, p, m) == ReadsPastMap(s, p, m)
        {
          CastElsewhere(s, h, o, m, p);
        }
        SameWhereReached(s, u, m, rest, ballot);
        LooksUpLiveIff(u, h, m, rest, ballot);
      }
    } else {
      assert LiveWhereReached(s, m, order, ballot);
    }
  }

  lemma StillThere(s: State, h: Hash, o: OutPoint, m: OutPoint)
    requires h in s.candidates
    ensures h in Cast(s, h, o, m).candidates
  {}

  // ---- runs in which every counted vote names an outpoint of its candidate

  /** Every hash voted for an outpoint has a candidate, which holds that outpoint. */
  ghost predicate Anchored(cs: Candidates, voted: Voted) {
    forall o, g :: o in voted && g in voted[o] ==> g in cs && o in cs[g].locks
  }

  lemma AnchoredIsLive(s: State, h: Hash, m: OutPoint, order: seq<OutPoint>, ballot: OutPoint -> Ballot)
    requires Anchored(s.candidates, s.voted) && h in s.candidates && Distinct(order)
    ensures LooksUpLive(s, h, m, order, ballot)
  {
    hide ReadsPastMap, AlreadyVoted, Reached, LooksUpLive;
    forall i | 0 <= i < |order| ensures !ReadsPastMap(s, order[i], m) { ReadsPastMapIff(s, order[i], m); }
    LooksUpLiveIff(s, h, m, order, ballot);
  }

  lemma GrowingKeepsAnchored(a: Candidates, b: Candidates, voted: Voted)
    requires Anchored(a, voted) && Grows(a, b)
    ensures Anchored(b, voted)
  {
    forall o, g | o in voted && g in voted[o] ensures g in b && o in b[g].locks {
      assert GrowsAt(a[g], b[g]);
    }
  }

  /** A sweep erases the outpoints of the candidates it removes, so it keeps what was anchored. */
  lemma SweptAnchored(s: State, e: Env)
    requires Anchored(s.candidates, s.voted)
    ensures Anchored(Swept(s, e).candidates, Swept(s, e).voted)
  {
    if e.synced {
      var u := Swept(s, e);
      forall o, g | o in u.voted && g in u.voted[o] ensures g in u.candidates && o in u.candidates[g].locks {
        assert o in s.candidates[g].locks;
        assert !Doomed(s.candidates, s.nCachedBlockHeight, o);
      }
    }
  }

  lemma ReconfirmedAnchored(a: Candidates, voted: Voted, h: Hash, n: int)
    requires Anchored(a, voted) && h in a
    ensures Anchored(a[h := a[h].(nConfirmedHeight := n)], voted)
  {}

  lemma DroppedAnchored(s: State, h: Hash, g: Hash, e: Env)
    requires Anchored(s.candidates, s.voted)
    ensures Anchored(Dropped(s, h, g, e).candidates, Dropped(s, h, g, e).voted)
  {
    hide Anchored, Swept;
    if h in s.candidates && g in s.candidates {
      var c1 := s.candidates[h := s.candidates[h].(nConfirmedHeight := 0)];
      ReconfirmedAnchored(s.candidates, s.voted, h, 0);
      ReconfirmedAnchored(c1, s.voted, g, 0);
      SweptAnchored(s.(candidates := c1[g := c1[g].(nConfirmedHeight := 0)]), e);
    }
  }

  lemma {:induction false} ResolvedAnchored(s: State, h: Hash, vin: seq<OutPoint>, i: nat, e: Env)
    requires Anchored(s.candidates, s.voted) && i <= |vin|
    ensures var u := Resolved(s, h, vin, i, e).0; Anchored(u.candidates, u.voted)
    decreases |vin| - i
  {
    hide Anchored, Dropped;
    if i < |vin| {
      if ConflictsAt(s, h, vin[i]) {
        DroppedAnchored(s, h, s.locked[vin[i]], e);
      } else {
        ResolvedAnchored(s, h, vin, i + 1, e);
      }
    }
  }

  lemma FinalizedAnchored(s: State, c: Candidate, e: Env)
    requires Anchored(s.candidates, s.voted)
    ensures Anchored(Finalized(s, c, e).candidates, Finalized(s, c, e).voted)
  {
    hide Anchored, Resolved, IsLocked, Candidate.IsAllOutPointsReady;
    ResolvedAnchored(s, c.request.GetHash(), c.request.Inputs(), 0, e);
  }

  lemma RequestedAnchored(s: State, r: Request, e: Env)
    requires Inv(s) && Anchored(s.candidates, s.voted)
    ensures Anchored(Requested(s, r, e).candidates, Requested(s, r, e).voted)
  {
    hide Anchored, Created, Formed, Backed, Finalized, Grows;
    CreatedKeeps(s.candidates, r, e);
    var u := s.(candidates := Created(s.candidates, r, e));
    GrowingKeepsAnchored(s.candidates, u.candidates, s.voted);
    if CreateSucceeds(s.candidates, r, e) { FinalizedAnchored(u, u.candidates[r.txHash], e); }
  }

  lemma OrphanedAnchored(s: State, v: Vote, e: Env)
    requires Inv(s) && Anchored(s.candidates, s.voted)
    ensures Anchored(Orphaned(s, v, e).candidates, Orphaned(s, v, e).voted)
  {
    hide Anchored, CreatedEmpty, Requested, Formed, Backed, EnoughOrphansFor, Grows;
    CreatedEmptyKeeps(s.candidates, v.txHash, e);
    var u := s.(candidates := CreatedEmpty(s.candidates, v.txHash, e), orphans := s.orphans + {v});
    GrowingKeepsBacked(s.candidates, u.candidates, s.locked);
    GrowingKeepsAnchored(s.candidates, u.candidates, s.voted);
    if Known(s, v.txHash) { RequestedAnchored(u, RequestOf(s, v.txHash), e); }
  }

  lemma MarkedLocks(s: State, v: Vote, h: Hash)
    requires h in s.candidates
    ensures h in Marked(s, v) && Marked(s, v)[h].locks.Keys == s.candidates[h].locks.Keys
  {
    hide VotedElsewhere;
  }

  lemma RecordedAnchored(cs: Candidates, voted: Voted, o: OutPoint, h: Hash)
    requires Anchored(cs, voted) && h in cs
    ensures Anchored(cs, Recorded(voted, o, h)) <==> o in cs[h].locks
  {
    assert o in Recorded(voted, o, h) && h in Recorded(voted, o, h)[o];
  }

  /** Counting a vote keeps every hash anchored if and only if the vote names an outpoint of its candidate: the source
      records the hash before it finds that it cannot store the vote. */
  lemma CountedAnchoredIff(s: State, v: Vote, e: Env)
    requires Inv(s) && Anchored(s.candidates, s.voted) && v.txHash in s.candidates
    ensures Anchored(Counted(s, v, e).candidates, Counted(s, v, e).voted) <==>
              v.outpoint in s.candidates[v.txHash].locks
  {
    hide Anchored, Marked, Finalized, Recorded, Candidate.WithVote, Formed, Backed, Grows, FormedCandidate, GrowsAt;
    MarkedKeeps(s, v);
    MarkedLocks(s, v, v.txHash);
    GrowingKeepsAnchored(s.candidates, Marked(s, v), s.voted);
    var u := s.(candidates := Marked(s, v), voted := Recorded(s.voted, v.outpoint, v.txHash));
    RecordedAnchored(u.candidates, s.voted, v.outpoint, v.txHash);
    var c := u.candidates[v.txHash];
    if c.CanAdd(v) {
      FormedAt(u.candidates, v.txHash);
      WithVoteKeeps(v.txHash, c, v);
      Replaced(u.candidates, v.txHash, c.WithVote(v));
      var w := u.(candidates := u.candidates[v.txHash := c.WithVote(v)]);
      GrowingKeepsAnchored(u.candidates, w.candidates, u.voted);
      FinalizedAnchored(w, c.WithVote(v), e);
    }
  }

  lemma CastAnchored(s: State, h: Hash, o: OutPoint, m: OutPoint)
    requires Inv(s) && Anchored(s.candidates, s.voted) && h in s.candidates
    ensures Anchored(Cast(s, h, o, m).candidates, Cast(s, h, o, m).voted)
  {
    hide Anchored, Backed, Grows, Recorded, Candidate.WithVote, GrowsAt;
    CastKeeps(s, h, o, m);
    var v := Vote(s.candidates[h].request.GetHash(), o, m);
    if s.candidates[h].CanAdd(v) {
      FormedAt(s.candidates, h);
      RecordedAnchored(s.candidates, s.voted, o, h);
      GrowingKeepsAnchored(s.candidates, Cast(s, h, o, m).candidates, Recorded(s.voted, o, h));
    }
  }

  lemma {:induction false} VotedOnAnchored(
    s: State, h: Hash, m: OutPoint, order: seq<OutPoint>, ballot: OutPoint -> Ballot)
    requires Inv(s) && Anchored(s.candidates, s.voted) && h in s.candidates
    ensures var u := VotedOn(s, h, m, order, ballot); Anchored(u.candidates, u.voted)
    decreases |order|
  {
    hide Inv, Anchored, Cast, AlreadyVoted, ReadsPastMap;
    if order != [] {
      VotedOnAnchored(s, h, m, order[1..], ballot);
      CastKeeps(s, h, order[0], m);
      CastAnchored(s, h, order[0], m);
      VotedOnAnchored(Cast(s, h, order[0], m), h, m, order[1..], ballot);
    }
  }

  lemma OwnVotedAnchored(
    s: State, h: Hash, m: OutPoint, order: seq<OutPoint>, ballot: OutPoint -> Ballot, e: Env)
    requires Inv(s) && Anchored(s.candidates, s.voted)
    ensures var u := OwnVoted(s, h, m, order, ballot, e); Anchored(u.candidates, u.voted)
  {
    hide Inv, Anchored, VotedOn, Finalized, OwnVoteDefined;
    if h in s.candidates {
      VotedOnAnchored(s, h, m, order, ballot);
      var u := if s.candidates[h].request.GetHash() in s.accepted then VotedOn(s, h, m, order, ballot) else s;
      if h in u.candidates { FinalizedAnchored(u, u.candidates[h], e); }
    }
  }

  /** A vote that gets counted names an outpoint of its candidate. */
  ghost predicate Aimed(s: State, op: Op, e: Env) {
    match op
    case LockVote(v, valid) =>
      valid && !Waits(s, v) && !s.candidates[v.txHash].IsTimedOut(e.now) ==> v.outpoint in s.candidates[v.txHash].locks
    case _ => true
  }

  lemma NextAnchored(s: State, op: Op, e: Env)
    requires Inv(s) && Anchored(s.candidates, s.voted)
    ensures Anchored(Next(s, op, e).candidates, Next(s, op, e).voted) <==> Aimed(s, op, e)
  {
    hide Inv, Anchored, Requested, Orphaned, Counted, OwnVoted, Swept;
    match op
    case LockRequest(r) => RequestedAnchored(s, r, e);
    case LockVote(v, valid) =>
      if valid {
        if Waits(s, v) { OrphanedAnchored(s, v, e); } else { CountedAnchoredIff(s, v, e); }
      }
    case OwnVote(h, m, order, ballot) => OwnVotedAnchored(s, h, m, order, ballot, e);
    case SyncTransaction(h, nHeight) =>
      if h in s.candidates { ReconfirmedAnchored(s.candidates, s.voted, h, nHeight); }
    case CheckAndRemove => SweptAnchored(s, e);
    case _ =>
  }

  lemma {:induction false} EveryRunAnchored(ss: seq<State>, ops: seq<Op>, es: seq<Env>, k: nat)
    requires Run(ss, ops, es) && k < |ss| && forall i :: 0 <= i < k ==> Aimed(ss[i], ops[i], es[i])
    ensures Anchored(ss[k].candidates, ss[k].voted)
  {
    if k > 0 {
      hide Inv, Anchored, Next, Aimed;
      EveryRunAnchored(ss, ops, es, k - 1);
      EveryRunKeepsInv(ss, ops, es, k - 1);
      NextAnchored(ss[k - 1], ops[k - 1], es[k - 1]);
    }
  }

  /** As long as every counted vote names an outpoint of its candidate, sweeps and conflicts included, none of the
      node's own votes reads past the map. */
  lemma EveryOwnVoteDefined(ss: seq<State>, ops: seq<Op>, es: seq<Env>, k: nat,
                            h: Hash, m: OutPoint, order: seq<OutPoint>, ballot: OutPoint -> Ballot)
    requires Run(ss, ops, es) && k < |ss| && forall i :: 0 <= i < k ==> Aimed(ss[i], ops[i], es[i])
    requires Distinct(order)
    ensures OwnVoteDefined(ss[k], h, m, order, ballot)
  {
    EveryRunAnchored(ss, ops, es, k);
    if h in ss[k].candidates { AnchoredIsLive(ss[k], h, m, order, ballot); }
  }
}

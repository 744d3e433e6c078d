/** The InstantSend manager: maps changed in place, each method proved against the model. */
module InstantSend {
  import opened M = InstantSendModel
  import P = InstantSendProofs
  import F = InstantSendEffects
  import Order

  ghost predicate DoomedBy(cs: Candidates, done: set<Hash>, n: int, o: OutPoint) {
    exists h :: h in done && h in cs && cs[h].IsExpired(n) && o in cs[h].locks
  }

  ghost predicate DoomedRequestBy(cs: Candidates, done: set<Hash>, n: int, k: Hash) {
    exists h :: h in done && h in cs && cs[h].IsExpired(n) && cs[h].request.GetHash() == k
  }

  /** The state when the sweep has dealt with the candidates in done. */
  ghost function SweptOver(s: State, done: set<Hash>): State {
    var n := s.nCachedBlockHeight;
    State(map h | h in s.candidates && !(h in done && s.candidates[h].IsExpired(n)) :: s.candidates[h],
          map o | o in s.voted && !DoomedBy(s.candidates, done, n, o) :: s.voted[o],
          map o | o in s.locked && !DoomedBy(s.candidates, done, n, o) :: s.locked[o],
          map k | k in s.accepted && !DoomedRequestBy(s.candidates, done, n, k) :: s.accepted[k],
          map k | k in s.rejected && !DoomedRequestBy(s.candidates, done, n, k) :: s.rejected[k],
          s.orphans, n)
  }

  lemma SweptOverNone(s: State)
    ensures SweptOver(s, {}) == s
  {}

  lemma SweptOverAll(s: State, e: Env)
    requires e.synced
    ensures SweptOver(s, s.candidates.Keys).(orphans := s.orphans - e.timedOut) == Swept(s, e)
  {
    var cs, n := s.candidates, s.nCachedBlockHeight;
    forall o ensures DoomedBy(cs, cs.Keys, n, o) == Doomed(cs, n, o) {}
    forall k ensures DoomedRequestBy(cs, cs.Keys, n, k) == DoomedRequest(cs, n, k) {}
    hide DoomedBy, Doomed, DoomedRequestBy, DoomedRequest, Candidate.IsExpired;
  }

  lemma SameDoomed(s: State, done: set<Hash>, h: Hash)
    requires h in s.candidates && !s.candidates[h].IsExpired(s.nCachedBlockHeight)
    ensures forall o :: DoomedBy(s.candidates, done + {h}, s.nCachedBlockHeight, o) ==
                        DoomedBy(s.candidates, done, s.nCachedBlockHeight, o)
    ensures forall k :: DoomedRequestBy(s.candidates, done + {h}, s.nCachedBlockHeight, k) ==
                        DoomedRequestBy(s.candidates, done, s.nCachedBlockHeight, k)
  {
    hide Candidate.IsExpired;
  }

  lemma SweptOverKept(s: State, done: set<Hash>, h: Hash)
    requires h in s.candidates && !s.candidates[h].IsExpired(s.nCachedBlockHeight)
    ensures SweptOver(s, done + {h}) == SweptOver(s, done)
  {
    SameDoomed(s, done, h);
    hide DoomedBy, DoomedRequestBy, Candidate.IsExpired;
    var w, u := SweptOver(s, done + {h}), SweptOver(s, done);
    assert w.candidates == u.candidates;
    assert w.voted == u.voted && w.locked == u.locked;
    assert w.accepted == u.accepted && w.rejected == u.rejected;
  }

  lemma SweptOverExpired(s: State, done: set<Hash>, h: Hash)
    requires h in s.candidates && s.candidates[h].IsExpired(s.nCachedBlockHeight)
    ensures var c, u := s.candidates[h], SweptOver(s, done);
            SweptOver(s, done + {h}) ==
              State(u.candidates - {h}, u.voted - c.locks.Keys, u.locked - c.locks.Keys,
                    u.accepted - {c.request.GetHash()}, u.rejected - {c.request.GetHash()},
                    u.orphans, u.nCachedBlockHeight)
  {
    hide Candidate.IsExpired;
    var n, c, u := s.nCachedBlockHeight, s.candidates[h], SweptOver(s, done);
    forall o ensures DoomedBy(s.candidates, done + {h}, n, o) <==> DoomedBy(s.candidates, done, n, o) || o in c.locks {}
    forall k
      ensures DoomedRequestBy(s.candidates, done + {h}, n, k) <==>
                DoomedRequestBy(s.candidates, done, n, k) || k == c.request.GetHash() {}
    hide DoomedBy, DoomedRequestBy;
    var w := SweptOver(s, done + {h});
    assert w.candidates == u.candidates - {h};
    assert w.voted == u.voted - c.locks.Keys;
    assert w.locked == u.locked - c.locks.Keys;
    assert w.accepted == u.accepted - {c.request.GetHash()};
    assert w.rejected == u.rejected - {c.request.GetHash()};
  }

  lemma MinusOneMore<K, V>(m: map<K, V>, a: set<K>, k: K)
    ensures m - a - {k} == m - (a + {k})
  {}

  lemma EntriesOneMore(locked: map<OutPoint, Hash>, a: set<OutPoint>, o: OutPoint, h: Hash)
    ensures var m := WithEntries(locked, a, h);
            WithEntries(locked, a + {o}, h) == if o in m then m else m[o := h]
  {}

  method IsAllOutPointsReady(c: Candidate) returns (ready: bool)
    ensures ready == c.IsAllOutPointsReady()
  {
    if c.locks.Keys == {} { return false; }
    var todo := c.locks.Keys;
    while todo != {}
      invariant todo <= c.locks.Keys
      invariant forall o :: o in c.locks && o !in todo ==> c.locks[o].IsReady()
      decreases |todo|
    {
      var o :| o in todo;
      if !c.locks[o].IsReady() { return false; }
      todo := todo - {o};
    }
    return true;
  }

  class InstantSend {
    var candidates: Candidates
    var voted: Voted
    var locked: map<OutPoint, Hash>
    var accepted: Requests
    var rejected: Requests
    var orphans: set<Vote>
    var nCachedBlockHeight: int

    ghost function State(): State
      reads this
    {
      M.State(candidates, voted, locked, accepted, rejected, orphans, nCachedBlockHeight)
    }

    constructor ()
      ensures State() == P.INITIAL
    {
      candidates, voted, locked, accepted, rejected, orphans := map[], map[], map[], map[], map[], {};
      nCachedBlockHeight := 0;
    }

    method CreateTxLockCandidate(r: Request, e: Env) returns (ok: bool)
      modifies this
      ensures State() == old(State()).(candidates := Created(old(candidates), r, e))
      ensures ok == CreateSucceeds(old(candidates), r, e)
    {
      if !e.requestIsValid || r.NoRequest? { return false; }
      if r.txHash !in candidates {
        var locks := AddOutPointLocks(map[], r.vin);
        candidates := candidates[r.txHash := Candidate(r, locks, -1, e.now)];
      } else if candidates[r.txHash].request.NoRequest? {
        var c := candidates[r.txHash].(request := r);
        if c.IsTimedOut(e.now) {
          candidates := candidates[r.txHash := c];
          return false;
        }
        var locks := AddOutPointLocks(c.locks, r.vin);
        candidates := candidates[r.txHash := c.(locks := locks)];
      }
      return true;
    }

    /** The inputs in reverse, each given an empty lock unless it has one. */
    static method AddOutPointLocks(earlier: Locks, vin: seq<OutPoint>) returns (locks: Locks)
      ensures locks == WithLocks(earlier, SetOf(vin))
    {
      locks := earlier;
      assert locks == WithLocks(earlier, SetOf(vin[|vin|..]));
      for i := |vin| downto 0
        invariant locks == WithLocks(earlier, SetOf(vin[i..]))
      {
        if vin[i] !in locks { locks := locks[vin[i] := OutPointLock(map[], false)]; }
        assert vin[i..] == [vin[i]] + vin[i + 1..];
        assert SetOf(vin[i..]) == SetOf(vin[i + 1..]) + {vin[i]};
      }
      assert vin[0..] == vin;
    }

    method IsLockedInstantSendTransaction(h: Hash) returns (yes: bool)
      ensures yes == IsLocked(State(), h)
    {
      if h !in candidates || candidates[h].locks.Keys == {} { return false; }
      var locks := candidates[h].locks;
      var todo := locks.Keys;
      while todo != {}
        invariant todo <= locks.Keys
        invariant forall o :: o in locks && o !in todo ==> o in locked && locked[o] == h
        decreases |todo|
      {
        var o :| o in todo;
        if o !in locked || locked[o] != h { return false; }
        todo := todo - {o};
      }
      return true;
    }

    method InsertOutpoints(outpoints: set<OutPoint>, h: Hash)
      modifies this`locked
      ensures locked == WithEntries(old(locked), outpoints, h)
    {
      var todo := outpoints;
      while todo != {}
        invariant todo <= outpoints
        invariant locked == WithEntries(old(locked), outpoints - todo, h)
        decreases |todo|
      {
        var o :| o in todo;
        assert outpoints - (todo - {o}) == (outpoints - todo) + {o};
        EntriesOneMore(old(locked), outpoints - todo, o, h);
        if o !in locked { locked := locked[o := h]; }
        todo := todo - {o};
      }
      assert outpoints - todo == outpoints;
    }

    method LockTransactionInputs(c: Candidate)
      modifies this`locked
      ensures State() == LockInputs(old(State()), c)
    {
      var ready := IsAllOutPointsReady(c);
      if ready { InsertOutpoints(c.locks.Keys, c.request.GetHash()); }
    }

    method EraseOutpoints(outpoints: set<OutPoint>)
      modifies this`locked, this`voted
      ensures voted == old(voted) - outpoints && locked == old(locked) - outpoints
    {
      var todo := outpoints;
      while todo != {}
        invariant todo <= outpoints
        invariant voted == old(voted) - (outpoints - todo)
        invariant locked == old(locked) - (outpoints - todo)
        decreases |todo|
      {
        var o :| o in todo;
        MinusOneMore(old(locked), outpoints - todo, o);
        MinusOneMore(old(voted), outpoints - todo, o);
        assert outpoints - (todo - {o}) == (outpoints - todo) + {o};
        locked := locked - {o};
        voted := voted - {o};
        todo := todo - {o};
      }
      assert outpoints - todo == outpoints;
    }

    /** One expired candidate goes with every entry for its outpoints. */
    method RemoveCandidate(h: Hash)
      requires h in candidates
      modifies this
      ensures var c := old(candidates)[h];
              State() == M.State(old(candidates) - {h}, old(voted) - c.locks.Keys, old(locked) - c.locks.Keys,
                                 old(accepted) - {c.request.GetHash()}, old(rejected) - {c.request.GetHash()},
                                 old(orphans), old(nCachedBlockHeight))
    {
      var c := candidates[h];
      EraseOutpoints(c.locks.Keys);
      accepted := accepted - {c.request.GetHash()};
      rejected := rejected - {c.request.GetHash()};
      candidates := candidates - {h};
    }

    method CheckAndRemove(e: Env)
      modifies this
      ensures State() == Swept(old(State()), e)
    {
      if !e.synced { return; }
      ghost var s := State();
      var all := candidates;
      var todo := all.Keys;
      SweptOverNone(s);
      while todo != {}
        invariant todo <= all.Keys && all == s.candidates
        invariant State() == SweptOver(s, all.Keys - todo)
        decreases |todo|
      {
        var h :| h in todo;
        ghost var done := all.Keys - todo;
        assert h in candidates && candidates[h] == all[h];
        assert all.Keys - (todo - {h}) == done + {h};
        if all[h].IsExpired(nCachedBlockHeight) {
          SweptOverExpired(s, done, h);
          RemoveCandidate(h);
        } else {
          SweptOverKept(s, done, h);
        }
        todo := todo - {h};
      }
      assert all.Keys - {} == s.candidates.Keys;
      orphans := orphans - e.timedOut;
      SweptOverAll(s, e);
    }

    method ResolveConflicts(c: Candidate, e: Env) returns (ok: bool)
      requires c.IsAllOutPointsReady()
      modifies this
      ensures (State(), ok) == Resolved(old(State()), c.request.GetHash(), c.request.Inputs(), 0, e)
      ensures ok <==> F.Unhindered(old(State()), c.request.GetHash(), c.request.Inputs(), e)
    {
      hide F.Unhindered;
      F.ResolvedIff(State(), c.request.GetHash(), c.request.Inputs(), e);
      var h, vin := c.request.GetHash(), c.request.Inputs();
      for i := 0 to |vin|
        invariant State() == old(State())
        invariant Resolved(old(State()), h, vin, 0, e) == Resolved(old(State()), h, vin, i, e)
      {
        var o := vin[i];
        if o in locked && locked[o] != h {
          var g := locked[o];
          if h !in candidates || g !in candidates { return false; }
          var r, q := candidates[h].request, candidates[g].request;
          candidates := candidates[h := candidates[h].(nConfirmedHeight := 0)];
          candidates := candidates[g := candidates[g].(nConfirmedHeight := 0)];
          CheckAndRemove(e);
          rejected := Inserted(rejected, h, r);
          rejected := Inserted(rejected, g, q);
          return false;
        } else if o in e.mempool && e.mempool[o] != h {
          return false;
        }
      }
      if e.inBlock { return true; }
      for i := 0 to |vin|
        invariant forall j :: 0 <= j < i ==> vin[j] in e.utxo
      {
        if vin[i] !in e.utxo { return false; }
      }
      return true;
    }

    method TryToFinalizeLockCandidate(c: Candidate, e: Env)
      modifies this
      ensures State() == Finalized(old(State()), c, e)
    {
      var ready := IsAllOutPointsReady(c);
      if !ready { return; }
      var done := IsLockedInstantSendTransaction(c.request.GetHash());
      if done { return; }
      var ok := ResolveConflicts(c, e);
      if ok { LockTransactionInputs(c); }
    }

    method ProcessTxLockRequest(r: Request, e: Env) returns (ok: bool)
      modifies this
      ensures State() == Requested(old(State()), r, e)
      ensures ok == CreateSucceeds(old(candidates), r, e)
    {
      ok := CreateTxLockCandidate(r, e);
      if !ok { return; }
      TryToFinalizeLockCandidate(candidates[r.txHash], e);
    }

    method IsEnoughOrphanVotesForTxAndOutPoint(h: Hash, o: OutPoint) returns (enough: bool)
      ensures enough == EnoughOrphans(orphans, h, o)
    {
      var nCountVotes := 0;
      var todo := orphans;
      while todo != {}
        invariant todo <= orphans && nCountVotes < SIGNATURES_REQUIRED
        invariant nCountVotes == |VotesFor(orphans - todo, h, o)|
        decreases |todo|
      {
        var v :| v in todo;
        VotesForGrows(orphans, todo, v, h, o);
        todo := todo - {v};
        if v.txHash == h && v.outpoint == o {
          nCountVotes := nCountVotes + 1;
          if nCountVotes >= SIGNATURES_REQUIRED { return true; }
        }
      }
      assert orphans - {} == orphans;
      return false;
    }

    method IsEnoughOrphanVotesForTx(r: Request) returns (enough: bool)
      ensures enough == EnoughOrphansFor(orphans, r)
    {
      var vin := r.Inputs();
      for i := 0 to |vin|
        invariant forall j :: 0 <= j < i ==> EnoughOrphans(orphans, r.GetHash(), vin[j])
      {
        var b := IsEnoughOrphanVotesForTxAndOutPoint(r.GetHash(), vin[i]);
        if !b { return false; }
      }
      return true;
    }

    /** The loop over the hashes voted for the same outpoint. */
    method MarkConflicts(v: Vote)
      requires v.txHash in candidates
      modifies this`candidates
      ensures candidates == Marked(old(State()), v)
    {
      hide Marked, MarkedOver, Candidate.Attacked;
      ghost var s := State();
      MarkedNone(s, v);
      if v.outpoint !in voted { return; }
      var o, todo := v.outpoint, voted[v.outpoint];
      assert voted[o] - todo == {};
      while todo != {}
        invariant v.txHash in candidates
        invariant todo <= voted[o] && State() == s.(candidates := candidates)
        invariant candidates == MarkedOver(s, v, voted[o] - todo)
        decreases |todo|
      {
        var g :| g in todo;
        assert voted[o] - (todo - {g}) == (voted[o] - todo) + {g};
        MarkedNext(s, v, voted[o] - todo, g);
        if g != v.txHash && g in candidates && candidates[g].HasMasternodeVoted(o, v.masternode) {
          candidates := candidates[v.txHash := candidates[v.txHash].Attacked(o)];
          candidates := candidates[g := candidates[g].Attacked(o)];
        }
        todo := todo - {g};
      }
      assert voted[o] - todo == voted[o];
      MarkedAll(s, v);
    }

    method ProcessTxLockVote(v: Vote, valid: bool, e: Env) returns (ok: bool)
      modifies this
      ensures State() == Processed(old(State()), v, valid, e)
      ensures ok == VoteAccepted(old(State()), v, valid, e)
    {
      if !valid { return false; }
      if v.txHash !in candidates || candidates[v.txHash].request.NoRequest? {
        if v !in orphans {
          candidates := CreatedEmpty(candidates, v.txHash, e);
          orphans := orphans + {v};
          if v.txHash in accepted || v.txHash in rejected {
            var r := if v.txHash in accepted then accepted[v.txHash] else rejected[v.txHash];
            var enough := IsEnoughOrphanVotesForTx(r);
            if enough {
              var _ := ProcessTxLockRequest(r, e);
              return true;
            }
          }
        }
        return e.notSpam;
      }
      if candidates[v.txHash].IsTimedOut(e.now) { return false; }
      MarkConflicts(v);
      voted := Recorded(voted, v.outpoint, v.txHash);
      var c := candidates[v.txHash];
      if !c.CanAdd(v) { return false; }
      candidates := candidates[v.txHash := c.WithVote(v)];
      TryToFinalizeLockCandidate(candidates[v.txHash], e);
      return true;
    }

    /** The loop over the hashes voted for an outpoint, in their order. */
    method HasAlreadyVoted(o: OutPoint, m: OutPoint) returns (defined: bool, yes: bool)
      ensures defined == !ReadsPastMap(State(), o, m)
      ensures defined ==> yes == AlreadyVoted(State(), o, m)
    {
      if o !in voted { return true, false; }
      hide Order.Ascending, ReadsPastMap, AlreadyVoted, NoVoteAmong;
      var hashes := Order.InOrder(voted[o]);
      InTheirOrder(voted[o], hashes);
      NoVoteYet(State(), o, m);
      for i := 0 to |hashes|
        invariant NoVoteAmong(State(), o, m, hashes[..i])
      {
        assert hashes[i] in voted[o];
        var g: Hash := hashes[i];
        SettledAt(State(), o, m, hashes, i, g);
        if g !in candidates { return false, false; }
        if candidates[g].HasMasternodeVoted(o, m) { return true, true; }
      }
      NeverSettled(State(), o, m, hashes);
      return true, false;
    }

    method VoteOnOutpoints(h: Hash, m: OutPoint, order: seq<OutPoint>, ballot: OutPoint -> Ballot)
      returns (defined: bool)
      requires h in candidates
      modifies this
      ensures State() == VotedOn(old(State()), h, m, order, ballot)
      ensures defined == LooksUpLive(old(State()), h, m, order, ballot)
    {
      hide ReadsPastMap, AlreadyVoted, Candidate.WithVote, Recorded;
      var i := 0;
      while i < |order|
        invariant 0 <= i <= |order| && h in candidates
        invariant VotedOn(State(), h, m, order[i..], ballot) == VotedOn(old(State()), h, m, order, ballot)
        invariant LooksUpLive(State(), h, m, order[i..], ballot) == LooksUpLive(old(State()), h, m, order, ballot)
      {
        var o := order[i];
        assert order[i..][1..] == order[i + 1..];
        var b := ballot(o);
        if b.NoUtxo? { return true; }
        if !b.NotRanked? {
          var live, done := HasAlreadyVoted(o, m);
          if !live { return false; }
          if !done {
            if b.CannotSign? { return true; }
            var v := M.Vote(candidates[h].request.GetHash(), o, m);
            if candidates[h].CanAdd(v) {
              candidates := candidates[h := candidates[h].WithVote(v)];
              voted := Recorded(voted, o, v.txHash);
            }
          }
        }
        i := i + 1;
      }
      return true;
    }

    /** The node's own vote; stops where the source would read past the map. */
    method Vote(h: Hash, m: OutPoint, order: seq<OutPoint>, ballot: OutPoint -> Ballot, e: Env) returns (defined: bool)
      modifies this
      ensures State() == OwnVoted(old(State()), h, m, order, ballot, e)
      ensures defined == OwnVoteDefined(old(State()), h, m, order, ballot)
    {
      defined := true;
      if h !in candidates { return; }
      if candidates[h].request.GetHash() in accepted {
        defined := VoteOnOutpoints(h, m, order, ballot);
        if !defined { return; }
      }
      if h in candidates { TryToFinalizeLockCandidate(candidates[h], e); }
    }
  }

  lemma InTheirOrder(hashes: set<Hash>, v: seq<int>)
    requires v == Order.Ascending(hashes)
    ensures Order.Increasing(v) && forall g :: g in hashes <==> g in v
  {}

  /** All these hashes have candidates, and the masternode has a vote in none. */
  ghost predicate NoVoteAmong(s: State, o: OutPoint, m: OutPoint, hashes: seq<int>) {
    forall g: Hash :: g in hashes ==> g in s.candidates && !s.candidates[g].HasMasternodeVoted(o, m)
  }

  lemma NoVoteYet(s: State, o: OutPoint, m: OutPoint)
    ensures NoVoteAmong(s, o, m, [])
  {}

  /** The next hash settles the question, or it stays open. */
  lemma SettledAt(s: State, o: OutPoint, m: OutPoint, v: seq<int>, i: nat, g: Hash)
    requires o in s.voted && Order.Increasing(v) && forall k: Hash :: k in s.voted[o] <==> k in v
    requires i < |v| && g == v[i] && g in s.voted[o] && NoVoteAmong(s, o, m, v[..i])
    ensures g !in s.candidates ==> ReadsPastMap(s, o, m)
    ensures g in s.candidates && s.candidates[g].HasMasternodeVoted(o, m) ==>
              !ReadsPastMap(s, o, m) && AlreadyVoted(s, o, m)
    ensures g in s.candidates && !s.candidates[g].HasMasternodeVoted(o, m) ==> NoVoteAmong(s, o, m, v[..i + 1])
  {
    hide Candidate.HasMasternodeVoted;
    forall k: Hash | k in s.voted[o] && k < g ensures k in v[..i] {
      var j :| 0 <= j < |v| && v[j] == k;
      assert v[..i][j] == k;
    }
    if g !in s.candidates {
      assert NoneBelow(s, o, m, g);
    } else if s.candidates[g].HasMasternodeVoted(o, m) {
      forall k: Hash | k in s.voted[o] && k !in s.candidates ensures !NoneBelow(s, o, m, k) {
        assert g < k;
      }
    } else {
      assert v[..i + 1] == v[..i] + [g];
    }
  }

  lemma NeverSettled(s: State, o: OutPoint, m: OutPoint, v: seq<int>)
    requires o in s.voted && (forall g: Hash :: g in s.voted[o] <==> g in v) && NoVoteAmong(s, o, m, v[..|v|])
    ensures !ReadsPastMap(s, o, m) && !AlreadyVoted(s, o, m)
  {
    assert v[..|v|] == v;
  }

  ghost function VotesFor(orphans: set<Vote>, h: Hash, o: OutPoint): set<Vote> {
    set v | v in orphans && v.txHash == h && v.outpoint == o
  }

  lemma VotesForGrows(orphans: set<Vote>, todo: set<Vote>, v: Vote, h: Hash, o: OutPoint)
    requires v in todo && todo <= orphans
    ensures |VotesFor(orphans - (todo - {v}), h, o)| ==
              |VotesFor(orphans - todo, h, o)| + if v.txHash == h && v.outpoint == o then 1 else 0
    ensures |VotesFor(orphans - (todo - {v}), h, o)| <= |VotesFor(orphans, h, o)|
  {
    var a, b := VotesFor(orphans - todo, h, o), VotesFor(orphans - (todo - {v}), h, o);
    if v.txHash == h && v.outpoint == o { assert b == a + {v}; } else { assert b == a; }
    assert VotesFor(orphans, h, o) == b + (VotesFor(orphans, h, o) - b);
  }

  /** The marks set when the hashes in done have been looked at. */
  ghost function MarkedOver(s: State, v: Vote, done: set<Hash>): Candidates {
    map h | h in s.candidates ::
      if (h in done && VotedElsewhere(s, v, h)) || (h == v.txHash && exists g :: g in done && VotedElsewhere(s, v, g))
      then s.candidates[h].Attacked(v.outpoint) else s.candidates[h]
  }

  lemma MarkedNone(s: State, v: Vote)
    ensures MarkedOver(s, v, {}) == s.candidates
    ensures v.outpoint !in s.voted ==> Marked(s, v) == s.candidates
  {}

  lemma MarkedAll(s: State, v: Vote)
    requires v.outpoint in s.voted
    ensures MarkedOver(s, v, s.voted[v.outpoint]) == Marked(s, v)
  {
    forall g ensures VotedElsewhere(s, v, g) == (g in s.voted[v.outpoint] && VotedElsewhere(s, v, g)) {}
  }

  lemma AttackedTwice(c: Candidate, o: OutPoint)
    ensures c.Attacked(o).Attacked(o) == c.Attacked(o)
    ensures forall m :: c.Attacked(o).HasMasternodeVoted(o, m) == c.HasMasternodeVoted(o, m)
  {}

  lemma MarkedNext(s: State, v: Vote, done: set<Hash>, g: Hash)
    requires v.txHash in s.candidates && v.outpoint in s.voted && g in s.voted[v.outpoint] && g !in done
    ensures var a, h, o := MarkedOver(s, v, done), v.txHash, v.outpoint;
            MarkedOver(s, v, done + {g}) ==
              if g != h && g in a && a[g].HasMasternodeVoted(o, v.masternode)
              then a[h := a[h].Attacked(o)][g := a[g].Attacked(o)] else a
  {
    hide Candidate.Attacked;
    var a, h, o := MarkedOver(s, v, done), v.txHash, v.outpoint;
    if h in s.candidates { AttackedTwice(s.candidates[h], o); }
    if g in s.candidates { AttackedTwice(s.candidates[g], o); }
    assert VotedElsewhere(s, v, g) <==> g != h && g in a && a[g].HasMasternodeVoted(o, v.masternode);
  }
}

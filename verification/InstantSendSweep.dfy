/** Why no sweep may forget a stored vote: a run in which six masternodes complete two conflicting locks. */
module InstantSendSweep {
  import opened InstantSendModel
  import opened InstantSendProofs
  import Q = InstantSendQuorum

  const COIN: OutPoint := OutPoint(1, 0)

  const CALM: Env := Env(0, true, {}, map[], false, {OutPoint(1, 0)}, true, true)

  function Voter(i: nat): OutPoint { OutPoint(9, i) }

  function Spender(h: Hash): Request { Request(h, [COIN]) }

  /** The votes of the first n masternodes. */
  function Ballots(h: Hash, n: nat): (votes: map<OutPoint, Vote>)
    ensures |votes| == n && forall i: nat :: Voter(i) in votes <==> i < n
  {
    if n == 0 then map[]
    else
      var earlier := Ballots(h, n - 1);
      assert Voter(n - 1) !in earlier;
      earlier[Voter(n - 1) := Vote(h, COIN, Voter(n - 1))]
  }

  function Polled(h: Hash, n: nat): Candidate {
    Candidate(Spender(h), map[COIN := OutPointLock(Ballots(h, n), false)], -1, 0)
  }

  /** Among these candidates h has n votes, nobody else is on record, and six votes have locked the coin. */
  function Polling(candidates: Candidates, h: Hash, n: nat, tip: int): State {
    State(candidates[h := Polled(h, n)],
          if n == 0 then map[] else map[COIN := {h}],
          if n < SIGNATURES_REQUIRED then map[] else map[COIN := h],
          map[], map[], {}, tip)
  }

  function THIRD(): Candidate { Polled(30, 0).(nConfirmedHeight := 1) }
  function TEN(): Candidates { map[10 := Polled(10, 6)] }

  /** The states of the run. */
  function StateAt(k: nat): State {
    if k == 0 then INITIAL
    else if k <= 7 then Polling(map[], 10, k - 1, 0)
    else if k == 8 then Polling(map[30 := Polled(30, 0)], 10, 6, 0)
    else if k == 9 then Polling(map[30 := THIRD()], 10, 6, 0)
    else if k == 10 then Polling(map[30 := THIRD()], 10, 6, 30)
    else if k == 11 then State(TEN(), map[], map[], map[], map[], {}, 30)
    else if k == 12 then State(TEN(), map[], map[], map[], map[], {}, 0)
    else if k <= 19 then Polling(TEN(), 20, k - 13, 0)
    else INITIAL
  }

  function OpAt(k: nat): Op {
    if k == 0 then LockRequest(Spender(10))
    else if k <= 6 then LockVote(Vote(10, COIN, Voter(k - 1)), true)
    else if k == 7 then LockRequest(Spender(30))
    else if k == 8 then SyncTransaction(30, 1)
    else if k == 9 then UpdatedBlockTip(30)
    else if k == 10 then CheckAndRemove
    else if k == 11 then UpdatedBlockTip(0)
    else if k == 12 then LockRequest(Spender(20))
    else if k <= 18 then LockVote(Vote(20, COIN, Voter(k - 13)), true)
    else CheckAndRemove
  }

  /** The six masternodes of the run are entitled to vote on every outpoint. */
  function Six(o: OutPoint): (q: set<OutPoint>)
    ensures |q| == 6 && forall i: nat :: Voter(i) in q <==> i < 6
  {
    KeysCount(Ballots(0, 6));
    Ballots(0, 6).Keys
  }

  lemma KeysCount(votes: map<OutPoint, Vote>)
    ensures |votes.Keys| == |votes|
  {}

  // ---- requests

  lemma Unready(s: State, c: Candidate)
    requires COIN in c.locks && |c.locks[COIN].votes| < SIGNATURES_REQUIRED
    ensures Finalized(s, c, CALM) == s
  {
    assert !c.locks[COIN].IsReady();
  }

  lemma NewLock()
    ensures WithLocks(map[], SetOf([COIN])) == map[COIN := OutPointLock(map[], false)]
  {}

  lemma Asked(s: State, h: Hash)
    requires h !in s.candidates
    ensures Next(s, LockRequest(Spender(h)), CALM) == s.(candidates := s.candidates[h := Polled(h, 0)])
  {
    hide Finalized, WithLocks, SetOf;
    NewLock();
    assert Created(s.candidates, Spender(h), CALM) == s.candidates[h := Polled(h, 0)];
    Unready(s.(candidates := s.candidates[h := Polled(h, 0)]), Polled(h, 0));
  }

  // ---- votes

  lemma NothingMarked(s: State, v: Vote)
    requires forall g :: v.outpoint in s.voted && g in s.voted[v.outpoint] ==> g == v.txHash
    ensures Marked(s, v) == s.candidates
  {}

  lemma OneMoreVote(h: Hash, n: nat)
    ensures Polled(h, n).CanAdd(Vote(h, COIN, Voter(n)))
    ensures Polled(h, n).WithVote(Vote(h, COIN, Voter(n))) == Polled(h, n + 1)
  {
    var a, b := Polled(h, n).WithVote(Vote(h, COIN, Voter(n))), Polled(h, n + 1);
    assert a.locks == b.locks;
  }

  lemma OnRecord(h: Hash, n: nat, candidates: Candidates, tip: int)
    ensures Recorded(Polling(candidates, h, n, tip).voted, COIN, h) == map[COIN := {h}]
  {
    var none: set<Hash> := {};
    assert none + {h} == {h} && {h} + {h} == {h};
  }

  /** The sixth vote completes the lock. */
  lemma Completes(s: State, h: Hash)
    requires s.locked == map[] && h in s.candidates && s.candidates[h] == Polled(h, 6)
    ensures Finalized(s, Polled(h, 6), CALM) == s.(locked := map[COIN := h])
  {
    hide Ballots, Dropped;
    var c := Polled(h, 6);
    assert c.IsAllOutPointsReady() by { assert c.locks[COIN].IsReady(); }
    assert !IsLocked(s, h) by { assert COIN in s.candidates[h].locks && COIN !in s.locked; }
    assert Resolved(s, h, [COIN], 1, CALM) == (s, true);
    assert Resolved(s, h, [COIN], 0, CALM) == (s, true);
    assert WithEntries(map[], {COIN}, h) == map[COIN := h];
    assert c.locks.Keys == {COIN};
  }

  lemma Voted(candidates: Candidates, h: Hash, n: nat, tip: int)
    requires n < 6
    ensures Next(Polling(candidates, h, n, tip), LockVote(Vote(h, COIN, Voter(n)), true), CALM) ==
              Polling(candidates, h, n + 1, tip)
  {
    hide Finalized, Recorded, Marked, Ballots;
    var s, v := Polling(candidates, h, n, tip), Vote(h, COIN, Voter(n));
    NothingMarked(s, v);
    OneMoreVote(h, n);
    OnRecord(h, n, candidates, tip);
    var w := s.(candidates := candidates[h := Polled(h, n + 1)], voted := map[COIN := {h}]);
    assert s.candidates[h := Polled(h, n + 1)] == w.candidates;
    if n < 5 { Unready(w, Polled(h, n + 1)); } else { Completes(w, h); }
  }

  // ---- the third candidate

  lemma Confirming(s: State)
    requires 30 in s.candidates && s.candidates[30] == Polled(30, 0)
    ensures Next(s, SyncTransaction(30, 1), CALM) == s.(candidates := s.candidates[30 := THIRD()])
  {}

  lemma CoinDoomed()
    ensures var cs := StateAt(10).candidates; Doomed(cs, 30, COIN) && cs[30].IsExpired(30) && !cs[10].IsExpired(30)
  {
    hide Ballots;
    var cs := StateAt(10).candidates;
    assert cs[30].IsExpired(30) && COIN in cs[30].locks;
  }

  lemma Forgotten()
    ensures Next(StateAt(10), CheckAndRemove, CALM) == StateAt(11)
  {
    CoinDoomed();
    hide Ballots, Doomed, DoomedRequest, Candidate.IsExpired;
    var u := Swept(StateAt(10), CALM);
    assert u.candidates == TEN();
    assert u.voted == map[] && u.locked == map[];
  }

  lemma ThirdAsked()
    ensures Next(StateAt(7), OpAt(7), CALM) == StateAt(8)
  {
    hide Ballots, Next;
    Asked(StateAt(7), 30);
    assert StateAt(7).candidates[30 := Polled(30, 0)] == StateAt(8).candidates;
  }

  lemma ThirdConfirmed()
    ensures Next(StateAt(8), OpAt(8), CALM) == StateAt(9)
  {
    hide Ballots, Next;
    Confirming(StateAt(8));
    assert StateAt(8).candidates[30 := THIRD()] == StateAt(9).candidates;
  }

  lemma TipMoves(s: State, tip: int)
    ensures Next(s, UpdatedBlockTip(tip), CALM) == s.(nCachedBlockHeight := tip)
  {}

  lemma StepAt(k: nat)
    requires k < 19
    ensures StateAt(k + 1) == Next(StateAt(k), OpAt(k), CALM)
  {
    hide Ballots, Next;
    if k == 0 {
      Asked(INITIAL, 10);
    } else if k <= 6 {
      Voted(map[], 10, k - 1, 0);
    } else if k == 7 {
      ThirdAsked();
    } else if k == 8 {
      ThirdConfirmed();
    } else if k == 9 {
      TipMoves(StateAt(9), 30);
    } else if k == 10 {
      Forgotten();
    } else if k == 11 {
      TipMoves(StateAt(11), 0);
    } else if k == 12 {
      Asked(StateAt(12), 20);
    } else {
      Voted(TEN(), 20, k - 13, 0);
    }
  }

  /** Six masternodes complete the lock of transaction 10 on a coin. A third candidate for the coin is confirmed and
      expires, the sweep takes the lock and the record of who voted with it, the chain is reorganized, and the same
      six complete the lock of transaction 20. Only the sweep is not proper; both candidates end up ready, neither
      marked, and each was reported locked. */
  lemma SweepLetsTwoComplete() returns (ss: seq<State>, ops: seq<Op>, es: seq<Env>)
    ensures Q.Bounded(Six) && Run(ss, ops, es) && |ops| == 19
    ensures forall i :: 0 <= i < 19 ==> (Q.Proper(Six, ss[i], ops[i], es[i]) <==> i != 10)
    ensures IsLocked(ss[7], 10) && IsLocked(ss[19], 20)
    ensures var last := ss[19].candidates;
            && 10 in last && 20 in last && COIN in last[10].locks && COIN in last[20].locks
            && last[10].locks[COIN].IsReady() && last[20].locks[COIN].IsReady()
  {
    hide Next, StateAt, OpAt, Ballots;
    ss, ops, es := seq(20, k requires k >= 0 => StateAt(k)), seq(19, k requires k >= 0 => OpAt(k)), seq(19, _ => CALM);
    forall i | 0 <= i < 19 ensures ss[i + 1] == Next(ss[i], ops[i], es[i]) { StepAt(i); }
    forall i | 0 <= i < 19 ensures Q.Proper(Six, ss[i], ops[i], es[i]) <==> i != 10 { OnlyTheSweep(i); }
    Ends();
  }

  lemma SweepForgets()
    ensures !Q.ForgetsNoVote(StateAt(10))
  {
    hide Ballots;
    var cs := StateAt(10).candidates;
    assert Q.HasVote(cs, 10, COIN, Voter(0)) && !cs[10].IsExpired(30);
    assert cs[30].IsExpired(30) && COIN in cs[30].locks;
    assert Doomed(cs, 30, COIN);
  }

  lemma OnlyTheSweep(i: nat)
    requires i < 19
    ensures Q.Proper(Six, StateAt(i), OpAt(i), CALM) <==> i != 10
  {
    hide Q.ForgetsNoVote, StateAt;
    SweepForgets();
  }

  lemma Ends()
    ensures StateAt(0) == INITIAL && IsLocked(StateAt(7), 10) && IsLocked(StateAt(19), 20)
    ensures var last := StateAt(19).candidates;
            && 10 in last && 20 in last && COIN in last[10].locks && COIN in last[20].locks
            && last[10].locks[COIN].IsReady() && last[20].locks[COIN].IsReady()
  {
    hide Ballots;
    assert COIN in StateAt(7).candidates[10].locks && COIN in StateAt(19).candidates[20].locks;
  }
}

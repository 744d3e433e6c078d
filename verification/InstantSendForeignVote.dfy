/** A run that ends where the node's own vote reads past the map: a vote on an outpoint its transaction does not
    spend is put on record, and the record outlives the candidate. */
module InstantSendForeignVote {
  import opened InstantSendModel
  import opened InstantSendProofs
  import opened InstantSendSweep
  import L = InstantSendLookup

  const FOREIGN: OutPoint := OutPoint(2, 0)

  function Other(): Request { Request(20, [FOREIGN]) }

  function Record(): Voted { map[FOREIGN := {10}] }

  function OtherCandidate(): Candidate { Candidate(Other(), map[FOREIGN := OutPointLock(map[], false)], -1, 0) }

  function Holding(candidates: Candidates, voted: Voted, accepted: Requests, tip: int): State {
    State(candidates, voted, map[], accepted, map[], {}, tip)
  }

  function Confirmed1(): Candidate { Polled(10, 0).(nConfirmedHeight := 1) }

  function ForeignStateAt(k: nat): State {
    if k == 0 then INITIAL
    else if k == 1 then Holding(map[10 := Polled(10, 0)], map[], map[], 0)
    else if k == 2 then Holding(map[10 := Polled(10, 0)], Record(), map[], 0)
    else if k == 3 then Holding(map[10 := Confirmed1()], Record(), map[], 0)
    else if k == 4 then Holding(map[10 := Confirmed1()], Record(), map[], 30)
    else if k == 5 then Holding(map[], Record(), map[], 30)
    else if k == 6 then Holding(map[20 := OtherCandidate()], Record(), map[], 30)
    else Holding(map[20 := OtherCandidate()], Record(), map[20 := Other()], 30)
  }

  function ForeignOpAt(k: nat): Op {
    if k == 0 then LockRequest(Spender(10))
    else if k == 1 then LockVote(Vote(10, FOREIGN, Voter(0)), true)
    else if k == 2 then SyncTransaction(10, 1)
    else if k == 3 then UpdatedBlockTip(30)
    else if k == 4 then CheckAndRemove
    else if k == 5 then LockRequest(Other())
    else Accept(Other())
  }

  lemma VotedAbroad(s: State)
    requires s == Holding(map[10 := Polled(10, 0)], map[], map[], 0)
    ensures Next(s, LockVote(Vote(10, FOREIGN, Voter(0)), true), CALM) == s.(voted := Record())
  {
    hide Finalized;
    var v := Vote(10, FOREIGN, Voter(0));
    NothingMarked(s, v);
    var none: set<Hash> := {};
    assert none + {10} == {10};
    assert Recorded(map[], FOREIGN, 10) == Record();
  }

  lemma Expires(s: State)
    requires s == Holding(map[10 := Polled(10, 0).(nConfirmedHeight := 1)], Record(), map[], 30)
    ensures Next(s, CheckAndRemove, CALM) == Holding(map[], Record(), map[], 30)
  {
    var u := Swept(s, CALM);
    assert s.candidates[10].IsExpired(30);
    assert !Doomed(s.candidates, 30, FOREIGN);
    assert u.candidates == map[] && u.voted == Record();
  }

  lemma OtherAsked(s: State)
    requires s == Holding(map[], Record(), map[], 30)
    ensures Next(s, LockRequest(Other()), CALM) == s.(candidates := map[20 := OtherCandidate()])
  {
    var c := OtherCandidate();
    assert WithLocks(map[], SetOf([FOREIGN])) == c.locks;
    assert Created(map[], Other(), CALM) == map[20 := c];
    assert !c.locks[FOREIGN].IsReady();
  }

  lemma Steps(k: nat)
    requires k < 7
    ensures ForeignStateAt(k + 1) == Next(ForeignStateAt(k), ForeignOpAt(k), CALM)
  {
    if k == 0 {
      Asked(INITIAL, 10);
    } else if k == 1 {
      VotedAbroad(ForeignStateAt(1));
    } else if k == 4 {
      Expires(ForeignStateAt(4));
    } else if k == 5 {
      OtherAsked(ForeignStateAt(5));
    }
  }

  lemma PastTheEnd(ballot: OutPoint -> Ballot, m: OutPoint)
    requires ballot(FOREIGN).CanSign?
    ensures !OwnVoteDefined(ForeignStateAt(7), 20, m, [FOREIGN], ballot)
  {
    var s := ForeignStateAt(7);
    assert NoneBelow(s, FOREIGN, m, 10);
    assert ReadsPastMap(s, FOREIGN, m);
  }

  /** The candidate of the hash on record is gone when the node comes to vote on the outpoint. Only the vote is not
      aimed at an outpoint of its candidate. */
  lemma OwnVoteReadsPastMap(ballot: OutPoint -> Ballot, m: OutPoint)
    returns (ss: seq<State>, ops: seq<Op>, es: seq<Env>)
    requires ballot(FOREIGN).CanSign?
    ensures Run(ss, ops, es) && |ops| == 7
    ensures forall i :: 0 <= i < 7 ==> (L.Aimed(ss[i], ops[i], es[i]) <==> i != 1)
    ensures !OwnVoteDefined(ss[7], 20, m, [FOREIGN], ballot)
  {
    hide Next, OwnVoteDefined, ForeignStateAt, ForeignOpAt, L.Aimed;
    ss, ops := seq(8, k requires k >= 0 => ForeignStateAt(k)), seq(7, k requires k >= 0 => ForeignOpAt(k));
    es := seq(7, _ => CALM);
    StartsEmpty();
    forall i | 0 <= i < 7 ensures ss[i + 1] == Next(ss[i], ops[i], es[i]) { Steps(i); }
    forall i | 0 <= i < 7 ensures L.Aimed(ss[i], ops[i], es[i]) <==> i != 1 { OnlyTheVote(i); }
    PastTheEnd(ballot, m);
  }

  lemma StartsEmpty()
    ensures ForeignStateAt(0) == INITIAL
  {}

  lemma OnlyTheVote(i: nat)
    requires i < 7
    ensures L.Aimed(ForeignStateAt(i), ForeignOpAt(i), CALM) <==> i != 1
  {}
}

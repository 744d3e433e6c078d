/** InstantSend: candidates gather masternode votes per spent outpoint, and a candidate with a
    quorum on every outpoint locks them all. The state and what each operation does to it. */
module InstantSendModel {

  const SIGNATURES_REQUIRED: nat := 6
  const SIGNATURES_TOTAL: nat := 10
  const INSTANTSEND_LOCK_TIMEOUT_SECONDS: int := 15
  const INSTANTSEND_KEEP_LOCK: int := 24

  type Hash = nat

  datatype OutPoint = OutPoint(hash: nat, n: nat)

  /** A vote is identified by what its hash covers; the signature is checked by the environment. */
  datatype Vote = Vote(txHash: Hash, outpoint: OutPoint, masternode: OutPoint)

  /** The empty request stands in a candidate whose transaction has not been seen. */
  datatype Request = NoRequest | Request(txHash: Hash, vin: seq<OutPoint>) {
    function GetHash(): Hash { if NoRequest? then 0 else txHash }

    function Inputs(): (r: seq<OutPoint>) { if NoRequest? then [] else vin }
  }

  datatype OutPointLock = OutPointLock(votes: map<OutPoint, Vote>, attacked: bool) {
    predicate IsReady() { !attacked && |votes| >= SIGNATURES_REQUIRED }
  }

  type Locks = map<OutPoint, OutPointLock>

  datatype Candidate = Candidate(request: Request, locks: Locks, nConfirmedHeight: int, nTimeCreated: int) {
    predicate IsAllOutPointsReady() {
      locks.Keys != {} && forall o :: o in locks ==> locks[o].IsReady()
    }

    predicate HasMasternodeVoted(o: OutPoint, m: OutPoint) {
      o in locks && m in locks[o].votes
    }

    predicate IsExpired(nHeight: int) {
      nConfirmedHeight != -1 && nHeight - nConfirmedHeight > INSTANTSEND_KEEP_LOCK
    }

    predicate IsTimedOut(now: int) {
      now - nTimeCreated > INSTANTSEND_LOCK_TIMEOUT_SECONDS
    }

    function Attacked(o: OutPoint): Candidate {
      if o in locks then this.(locks := locks[o := locks[o].(attacked := true)]) else this
    }

    predicate CanAdd(v: Vote) {
      v.outpoint in locks && v.masternode !in locks[v.outpoint].votes
    }

    function WithVote(v: Vote): Candidate
      requires CanAdd(v)
    {
      var lock := locks[v.outpoint];
      this.(locks := locks[v.outpoint := lock.(votes := lock.votes[v.masternode := v])])
    }
  }

  type Candidates = map<Hash, Candidate>
  type Voted = map<OutPoint, set<Hash>>
  type Requests = map<Hash, Request>

  datatype State = State(
    candidates: Candidates,
    voted: Voted,
    locked: map<OutPoint, Hash>,
    accepted: Requests,
    rejected: Requests,
    orphans: set<Vote>,
    nCachedBlockHeight: int)

  /** What the rest of the node answers while one message is handled. */
  datatype Env = Env(
    now: int,
    synced: bool,                     // the masternode list is synced
    timedOut: set<Vote>,              // orphan votes older than the timeout
    mempool: map<OutPoint, Hash>,     // the pool's spender of an outpoint
    inBlock: bool,                    // the transaction is in a block
    utxo: set<OutPoint>,
    requestIsValid: bool,
    notSpam: bool)

  /** What a masternode finds when it looks at an outpoint it might vote on. */
  datatype Ballot = NoUtxo | NotRanked | CannotSign | CanSign

  // ---- candidates

  function SetOf(vin: seq<OutPoint>): set<OutPoint> {
    set o | o in vin
  }

  function WithLocks(locks: Locks, inputs: set<OutPoint>): Locks {
    map o | o in locks.Keys + inputs :: if o in locks then locks[o] else OutPointLock(map[], false)
  }

  predicate CreateSucceeds(candidates: Candidates, r: Request, e: Env) {
    && e.requestIsValid && r.Request?
    && (r.txHash in candidates && candidates[r.txHash].request.NoRequest? ==> !candidates[r.txHash].IsTimedOut(e.now))
  }

  function Created(candidates: Candidates, r: Request, e: Env): Candidates {
    if !e.requestIsValid || r.NoRequest? then candidates
    else if r.txHash !in candidates then
      candidates[r.txHash := Candidate(r, WithLocks(map[], SetOf(r.vin)), -1, e.now)]
    else
      var c := candidates[r.txHash];
      if c.request.Request? then candidates
      else if c.IsTimedOut(e.now) then candidates[r.txHash := c.(request := r)]
      else candidates[r.txHash := c.(request := r, locks := WithLocks(c.locks, SetOf(r.vin)))]
  }

  function CreatedEmpty(candidates: Candidates, h: Hash, e: Env): Candidates {
    if h in candidates then candidates else candidates[h := Candidate(NoRequest, map[], -1, e.now)]
  }

  // ---- completing a lock

  predicate IsLocked(s: State, h: Hash) {
    && h in s.candidates
    && var locks := s.candidates[h].locks;
       locks.Keys != {} && forall o :: o in locks ==> o in s.locked && s.locked[o] == h
  }

  /** Insertion that never replaces. */
  function WithEntries(locked: map<OutPoint, Hash>, outpoints: set<OutPoint>, h: Hash): map<OutPoint, Hash> {
    map o | o in locked.Keys + outpoints :: if o in locked then locked[o] else h
  }

  function LockInputs(s: State, c: Candidate): State {
    if !c.IsAllOutPointsReady() then s
    else s.(locked := WithEntries(s.locked, c.locks.Keys, c.request.GetHash()))
  }

  ghost predicate Doomed(candidates: Candidates, nHeight: int, o: OutPoint) {
    exists h :: h in candidates && candidates[h].IsExpired(nHeight) && o in candidates[h].locks
  }

  ghost predicate DoomedRequest(candidates: Candidates, nHeight: int, k: Hash) {
    exists h :: h in candidates && candidates[h].IsExpired(nHeight) && candidates[h].request.GetHash() == k
  }

  /** Expired candidates go, with every entry for an outpoint they held. */
  ghost function Swept(s: State, e: Env): State {
    if !e.synced then s
    else
      var n := s.nCachedBlockHeight;
      State(map h | h in s.candidates && !s.candidates[h].IsExpired(n) :: s.candidates[h],
            map o | o in s.voted && !Doomed(s.candidates, n, o) :: s.voted[o],
            map o | o in s.locked && !Doomed(s.candidates, n, o) :: s.locked[o],
            map k | k in s.accepted && !DoomedRequest(s.candidates, n, k) :: s.accepted[k],
            map k | k in s.rejected && !DoomedRequest(s.candidates, n, k) :: s.rejected[k],
            s.orphans - e.timedOut, n)
  }

  function Inserted(requests: Requests, k: Hash, r: Request): Requests {
    if k in requests then requests else requests[k := r]
  }

  /** Two completed locks on one outpoint: both candidates are made to expire and the sweep is run. */
  ghost function Dropped(s: State, h: Hash, g: Hash, e: Env): State {
    if h !in s.candidates || g !in s.candidates then s
    else
      var r, q := s.candidates[h].request, s.candidates[g].request;
      var c1 := s.candidates[h := s.candidates[h].(nConfirmedHeight := 0)];
      var c2 := c1[g := c1[g].(nConfirmedHeight := 0)];
      var u := Swept(s.(candidates := c2), e);
      u.(rejected := Inserted(Inserted(u.rejected, h, r), g, q))
  }

  predicate ConflictsAt(s: State, h: Hash, o: OutPoint) {
    o in s.locked && s.locked[o] != h
  }

  /** The checks before a lock is completed, input by input from the i-th on. */
  ghost function Resolved(s: State, h: Hash, vin: seq<OutPoint>, i: nat, e: Env): (State, bool)
    requires i <= |vin|
    decreases |vin| - i
  {
    if i == |vin| then (s, e.inBlock || forall o :: o in vin ==> o in e.utxo)
    else if ConflictsAt(s, h, vin[i]) then (Dropped(s, h, s.locked[vin[i]], e), false)
    else if vin[i] in e.mempool && e.mempool[vin[i]] != h then (s, false)
    else Resolved(s, h, vin, i + 1, e)
  }

  ghost function Finalized(s: State, c: Candidate, e: Env): State {
    var h := c.request.GetHash();
    if c.IsAllOutPointsReady() && !IsLocked(s, h) then
      var (u, ok) := Resolved(s, h, c.request.Inputs(), 0, e);
      if ok then LockInputs(u, c) else u
    else s
  }

  // ---- a lock request

  ghost function Requested(s: State, r: Request, e: Env): State {
    var u := s.(candidates := Created(s.candidates, r, e));
    if !CreateSucceeds(s.candidates, r, e) then u
    else Finalized(u, u.candidates[r.txHash], e)
  }

  // ---- a vote

  predicate VotedElsewhere(s: State, v: Vote, g: Hash) {
    && v.outpoint in s.voted && g in s.voted[v.outpoint] && g != v.txHash
    && g in s.candidates && s.candidates[g].HasMasternodeVoted(v.outpoint, v.masternode)
  }

  /** A masternode voting twice on an outpoint has both locks marked. */
  ghost function Marked(s: State, v: Vote): Candidates {
    map h | h in s.candidates ::
      if VotedElsewhere(s, v, h) || (h == v.txHash && exists g :: VotedElsewhere(s, v, g))
      then s.candidates[h].Attacked(v.outpoint) else s.candidates[h]
  }

  function Recorded(voted: Voted, o: OutPoint, h: Hash): Voted {
    voted[o := (if o in voted then voted[o] else {}) + {h}]
  }

  predicate Waits(s: State, v: Vote) {
    v.txHash !in s.candidates || s.candidates[v.txHash].request.NoRequest?
  }

  ghost predicate EnoughOrphans(orphans: set<Vote>, h: Hash, o: OutPoint) {
    |set v | v in orphans && v.txHash == h && v.outpoint == o| >= SIGNATURES_REQUIRED
  }

  ghost predicate EnoughOrphansFor(orphans: set<Vote>, r: Request) {
    forall o :: o in r.Inputs() ==> EnoughOrphans(orphans, r.GetHash(), o)
  }

  predicate Known(s: State, h: Hash) {
    h in s.accepted || h in s.rejected
  }

  function RequestOf(s: State, h: Hash): Request
    requires Known(s, h)
  {
    if h in s.accepted then s.accepted[h] else s.rejected[h]
  }

  /** A vote that came before its request: kept aside, and the request tried again once there are enough. */
  ghost function Orphaned(s: State, v: Vote, e: Env): State {
    if v in s.orphans then s
    else
      var u := s.(candidates := CreatedEmpty(s.candidates, v.txHash, e), orphans := s.orphans + {v});
      if Known(s, v.txHash) && EnoughOrphansFor(u.orphans, RequestOf(s, v.txHash))
      then Requested(u, RequestOf(s, v.txHash), e) else u
  }

  ghost function Counted(s: State, v: Vote, e: Env): State
    requires v.txHash in s.candidates
  {
    var u := s.(candidates := Marked(s, v), voted := Recorded(s.voted, v.outpoint, v.txHash));
    var c := u.candidates[v.txHash];
    if !c.CanAdd(v) then u
    else Finalized(u.(candidates := u.candidates[v.txHash := c.WithVote(v)]), c.WithVote(v), e)
  }

  ghost function Processed(s: State, v: Vote, valid: bool, e: Env): State {
    if !valid then s
    else if Waits(s, v) then Orphaned(s, v, e)
    else if s.candidates[v.txHash].IsTimedOut(e.now) then s
    else Counted(s, v, e)
  }

  /** What the caller of the vote handler is told. */
  ghost predicate VoteAccepted(s: State, v: Vote, valid: bool, e: Env) {
    && valid
    && if Waits(s, v) then
         || e.notSpam
         || (v !in s.orphans && Known(s, v.txHash) && EnoughOrphansFor(s.orphans + {v}, RequestOf(s, v.txHash)))
       else !s.candidates[v.txHash].IsTimedOut(e.now) && s.candidates[v.txHash].CanAdd(v)
  }

  // ---- this node's own votes

  ghost predicate AlreadyVoted(s: State, o: OutPoint, m: OutPoint) {
    && o in s.voted
    && exists g :: g in s.voted[o] && g in s.candidates && s.candidates[g].HasMasternodeVoted(o, m)
  }

  ghost function Cast(s: State, h: Hash, o: OutPoint, m: OutPoint): State
    requires h in s.candidates
  {
    var v := Vote(s.candidates[h].request.GetHash(), o, m);
    if !s.candidates[h].CanAdd(v) then s
    else s.(candidates := s.candidates[h := s.candidates[h].WithVote(v)], voted := Recorded(s.voted, o, v.txHash))
  }

  /** Going through the hashes voted for an outpoint in their order, the first to settle the question is one
      whose candidate is gone: the source dereferences the end of the map there. */
  ghost predicate ReadsPastMap(s: State, o: OutPoint, m: OutPoint) {
    && o in s.voted
    && exists g :: g in s.voted[o] && g !in s.candidates && NoneBelow(s, o, m, g)
  }

  ghost predicate NoneBelow(s: State, o: OutPoint, m: OutPoint, g: Hash)
    requires o in s.voted
  {
    forall k :: k in s.voted[o] && k < g && k in s.candidates ==> !s.candidates[k].HasMasternodeVoted(o, m)
  }

  /** The outpoints of the candidate in their order. Looking stops at the first that cannot be judged, and the
      model stops where the source would read past the map. */
  ghost function VotedOn(s: State, h: Hash, m: OutPoint, order: seq<OutPoint>, ballot: OutPoint -> Ballot): State
    requires h in s.candidates
    decreases |order|
  {
    if order == [] || ballot(order[0]).NoUtxo? then s
    else
      var o := order[0];
      if ballot(o).NotRanked? then VotedOn(s, h, m, order[1..], ballot)
      else if ReadsPastMap(s, o, m) then s
      else if AlreadyVoted(s, o, m) then VotedOn(s, h, m, order[1..], ballot)
      else if ballot(o).CannotSign? then s
      else VotedOn(Cast(s, h, o, m), h, m, order[1..], ballot)
  }

  /** Every look-up on the way finds its candidate. */
  ghost predicate LooksUpLive(s: State, h: Hash, m: OutPoint, order: seq<OutPoint>, ballot: OutPoint -> Ballot)
    requires h in s.candidates
    decreases |order|
  {
    order == [] || ballot(order[0]).NoUtxo? ||
    var o := order[0];
    if ballot(o).NotRanked? then LooksUpLive(s, h, m, order[1..], ballot)
    else if ReadsPastMap(s, o, m) then false
    else if AlreadyVoted(s, o, m) then LooksUpLive(s, h, m, order[1..], ballot)
    else ballot(o).CannotSign? || LooksUpLive(Cast(s, h, o, m), h, m, order[1..], ballot)
  }

  /** The node's own vote on a candidate is defined behaviour. */
  ghost predicate OwnVoteDefined(s: State, h: Hash, m: OutPoint, order: seq<OutPoint>, ballot: OutPoint -> Ballot) {
    h in s.candidates && s.candidates[h].request.GetHash() in s.accepted ==> LooksUpLive(s, h, m, order, ballot)
  }

  ghost function OwnVoted(s: State, h: Hash, m: OutPoint, order: seq<OutPoint>, ballot: OutPoint -> Ballot,
                          e: Env): State
  {
    if h !in s.candidates then s
    else
      var u := if s.candidates[h].request.GetHash() in s.accepted then VotedOn(s, h, m, order, ballot) else s;
      if OwnVoteDefined(s, h, m, order, ballot) && h in u.candidates then Finalized(u, u.candidates[h], e) else u
  }
}

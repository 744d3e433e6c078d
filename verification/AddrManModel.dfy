/** State and transitions of the stochastic address manager, on values.
    The class in AddrMan.dfy is proved to perform exactly these transitions. */
module AddrManModel {
  import opened Powers

  const TRIED_BUCKET_COUNT: nat := 256
  const NEW_BUCKET_COUNT: nat := 1024
  const BUCKET_SIZE: nat := 64
  const NEW_BUCKETS_PER_ADDRESS := 8
  const HORIZON_DAYS := 30
  const RETRIES := 3
  const MAX_FAILURES := 10
  const MIN_FAIL_DAYS := 7
  const REPLACEMENT_HOURS := 4
  const GETADDR_MAX_PCT := 23
  const GETADDR_MAX := 2500
  const SET_TRIED_COLLISION_SIZE := 10

  /** The set bits of a ServiceFlags word. */
  type Services = set<nat>

  datatype NetAddr = NetAddr(ip: seq<bv8>)
  datatype Service = Service(net: NetAddr, port: nat)
  datatype Address = Address(service: Service, nTime: nat, nServices: Services)

  datatype Info = Info(
    service: Service, nTime: nat, nServices: Services, source: NetAddr,
    nLastTry: int, nLastCountAttempt: int, nLastSuccess: int, nAttempts: int,
    nRefCount: int, fInTried: bool, nRandomPos: int)

  datatype Cell = Cell(bucket: nat, pos: nat)

  /** A bucket table: the cells that do not hold -1. */
  type Table = map<Cell, int>

  /** What the node cannot choose: the keyed hashes and the address classifiers. */
  datatype Env = Env(
    triedHash: (nat, Service) -> nat,
    newHash: (nat, Service, NetAddr) -> nat,
    posHash: (nat, bool, nat, Service) -> nat,
    routable: NetAddr -> bool,
    valid: Service -> bool)
  {
    function TriedCell(key: nat, a: Service): Cell {
      var b := triedHash(key, a) % TRIED_BUCKET_COUNT;
      Cell(b, posHash(key, false, b, a) % BUCKET_SIZE)
    }

    /** The cell of new bucket b in which a would be stored. */
    function CellIn(key: nat, a: Service, b: nat): Cell {
      Cell(b, posHash(key, true, b, a) % BUCKET_SIZE)
    }

    function NewCell(key: nat, a: Service, source: NetAddr): Cell {
      CellIn(key, a, newHash(key, a, source) % NEW_BUCKET_COUNT)
    }
  }

  datatype State = State(
    nKey: nat,
    nIdCount: int,
    mapInfo: map<int, Info>,
    mapAddr: map<NetAddr, int>,
    vRandom: seq<int>,
    nTried: int,
    vvTried: Table,
    nNew: int,
    vvNew: Table,
    nLastGood: int,
    collisions: set<int>)

  function Cleared(key: nat): State {
    State(key, 0, map[], map[], [], 0, map[], 0, map[], 1, {})
  }

  predicate IsTerrible(i: Info, now: int) {
    if i.nLastTry != 0 && i.nLastTry >= now - 60 then false
    else
      || i.nTime > now + 10 * 60
      || i.nTime == 0
      || now - i.nTime > HORIZON_DAYS * 24 * 60 * 60
      || (i.nLastSuccess == 0 && i.nAttempts >= RETRIES)
      || (now - i.nLastSuccess > MIN_FAIL_DAYS * 24 * 60 * 60 && i.nAttempts >= MAX_FAILURES)
  }

  function Max0(x: int): nat { if x < 0 then 0 else x }

  predicate Known(s: State, a: NetAddr) {
    a in s.mapAddr && s.mapAddr[a] in s.mapInfo
  }

  function SetInfo(s: State, id: int, i: Info): State {
    s.(mapInfo := s.mapInfo[id := i])
  }

  /** A new entry for addr under the next id, not yet in any bucket. */
  function Create(s: State, addr: Address, source: NetAddr, nTime: nat): State {
    var i := Info(addr.service, nTime, addr.nServices, source, 0, 0, 0, 0, 0, false, |s.vRandom|);
    s.(nIdCount := s.nIdCount + 1,
       mapInfo := s.mapInfo[s.nIdCount := i],
       mapAddr := s.mapAddr[addr.service.net := s.nIdCount],
       vRandom := s.vRandom + [s.nIdCount])
  }

  predicate CanSwap(s: State, i: int, j: int) {
    0 <= i < |s.vRandom| && 0 <= j < |s.vRandom| && s.vRandom[i] in s.mapInfo && s.vRandom[j] in s.mapInfo
  }

  function SwapRandom(s: State, i: int, j: int): State
    requires CanSwap(s, i, j)
  {
    if i == j then s else
    var a, b := s.vRandom[i], s.vRandom[j];
    var m := s.mapInfo[a := s.mapInfo[a].(nRandomPos := j)];
    s.(mapInfo := m[b := m[b].(nRandomPos := i)], vRandom := s.vRandom[i := b][j := a])
  }

  /** Everything Delete asserts, and that its swap touches known entries only. */
  predicate CanDelete(s: State, id: int) {
    && id in s.mapInfo && !s.mapInfo[id].fInTried && s.mapInfo[id].nRefCount == 0
    && CanSwap(s, s.mapInfo[id].nRandomPos, |s.vRandom| - 1)
  }

  function Delete(s: State, id: int): State
    requires CanDelete(s, id)
  {
    var t := SwapRandom(s, s.mapInfo[id].nRandomPos, |s.vRandom| - 1);
    t.(vRandom := t.vRandom[..|t.vRandom| - 1],
       mapAddr := t.mapAddr - {s.mapInfo[id].service.net},
       mapInfo := t.mapInfo - {id},
       nNew := t.nNew - 1)
  }

  function Unref(s: State, c: Cell): State
    requires c in s.vvNew && s.vvNew[c] in s.mapInfo
  {
    var id := s.vvNew[c];
    s.(mapInfo := s.mapInfo[id := s.mapInfo[id].(nRefCount := s.mapInfo[id].nRefCount - 1)],
       vvNew := s.vvNew - {c})
  }

  /** Everything ClearNew asserts, directly or inside Delete. */
  predicate CanClear(s: State, c: Cell) {
    c in s.vvNew ==>
      && s.vvNew[c] in s.mapInfo && s.mapInfo[s.vvNew[c]].nRefCount > 0
      && (s.mapInfo[s.vvNew[c]].nRefCount == 1 ==> CanDelete(Unref(s, c), s.vvNew[c]))
  }

  function ClearNew(s: State, c: Cell): State
    requires CanClear(s, c)
  {
    if c !in s.vvNew then s
    else if s.mapInfo[s.vvNew[c]].nRefCount == 1 then Delete(Unref(s, c), s.vvNew[c])
    else Unref(s, c)
  }

  /** The cells holding id. */
  ghost function Refs(t: Table, id: int): set<Cell> {
    set c | c in t && t[c] == id
  }

  // MakeTried in four stages: leave every new bucket, evict the holder of the tried cell,
  // find the evicted entry a new bucket, take the tried cell.

  ghost function DropRefs(s: State, id: int): State
    requires id in s.mapInfo
  {
    s.(vvNew := s.vvNew - Refs(s.vvNew, id), mapInfo := s.mapInfo[id := s.mapInfo[id].(nRefCount := 0)])
  }

  ghost function Evict(s: State, c: Cell): State
    requires c in s.vvTried && s.vvTried[c] in s.mapInfo
  {
    var id := s.vvTried[c];
    s.(mapInfo := s.mapInfo[id := s.mapInfo[id].(fInTried := false)],
       vvTried := s.vvTried - {c}, nTried := s.nTried - 1, nNew := s.nNew + 1)
  }

  function Enter(s: State, id: int, c: Cell): State
    requires id in s.mapInfo
  {
    s.(mapInfo := s.mapInfo[id := s.mapInfo[id].(nRefCount := s.mapInfo[id].nRefCount + 1)],
       vvNew := s.vvNew[c := id])
  }

  ghost function TakeTried(s: State, id: int, c: Cell): State
    requires id in s.mapInfo
  {
    s.(mapInfo := s.mapInfo[id := s.mapInfo[id].(fInTried := true)],
       vvTried := s.vvTried[c := id], nTried := s.nTried + 1, nNew := s.nNew - 1)
  }

  ghost predicate CanMakeTried(e: Env, s: State, id: int) {
    id in s.mapInfo &&
    var c := e.TriedCell(s.nKey, s.mapInfo[id].service);
    var t := DropRefs(s, id);
    c in t.vvTried ==>
      var holder := t.vvTried[c];
      && holder in t.mapInfo && holder != id
      && var u := Evict(t, c);
         var n := e.NewCell(s.nKey, u.mapInfo[holder].service, u.mapInfo[holder].source);
         CanClear(u, n) && holder in ClearNew(u, n).mapInfo && id in ClearNew(u, n).mapInfo
  }

  ghost function MakeTried(e: Env, s: State, id: int): State
    requires CanMakeTried(e, s, id)
  {
    var c := e.TriedCell(s.nKey, s.mapInfo[id].service);
    var t := DropRefs(s, id);
    if c !in t.vvTried then TakeTried(t, id, c)
    else
      var holder := t.vvTried[c];
      var u := Evict(t, c);
      var n := e.NewCell(s.nKey, u.mapInfo[holder].service, u.mapInfo[holder].source);
      TakeTried(Enter(ClearNew(u, n), holder, n), id, c)
  }

  /** Some new bucket holds id in the cell its address hashes to. */
  ghost predicate InSomeBucket(e: Env, s: State, id: int)
    requires id in s.mapInfo
  {
    exists b: nat :: b < NEW_BUCKET_COUNT && HoldsIn(e, s, id, b)
  }

  ghost predicate HoldsIn(e: Env, s: State, id: int, b: nat)
    requires id in s.mapInfo
  {
    var c := e.CellIn(s.nKey, s.mapInfo[id].service, b);
    c in s.vvNew && s.vvNew[c] == id
  }

  function Succeeded(i: Info, time: int): Info {
    i.(nLastSuccess := time, nLastTry := time, nAttempts := 0)
  }

  predicate Exact(s: State, a: Service) {
    Known(s, a.net) && s.mapInfo[s.mapAddr[a.net]].service == a
  }

  /** Good_ up to the point where the entry is to enter the tried table. */
  function Noted(s: State, a: Service, time: int): State {
    var t := s.(nLastGood := time);
    if !Exact(s, a) then t else SetInfo(t, s.mapAddr[a.net], Succeeded(s.mapInfo[s.mapAddr[a.net]], time))
  }

  ghost predicate Promotes(e: Env, s: State, a: Service) {
    Exact(s, a) && !s.mapInfo[s.mapAddr[a.net]].fInTried && InSomeBucket(e, s, s.mapAddr[a.net])
  }

  ghost predicate Collides(e: Env, s: State, a: Service) {
    e.TriedCell(s.nKey, a) in s.vvTried
  }

  ghost predicate CanGood(e: Env, s: State, a: Service, test: bool, time: int) {
    Promotes(e, s, a) && !(test && Collides(e, s, a)) ==>
      CanMakeTried(e, Noted(s, a, time), s.mapAddr[a.net])
  }

  ghost function Good(e: Env, s: State, a: Service, test: bool, time: int): State
    requires CanGood(e, s, a, test, time)
  {
    var t := Noted(s, a, time);
    if !Promotes(e, s, a) then t
    else if test && Collides(e, s, a) then
      if |s.collisions| < SET_TRIED_COLLISION_SIZE
      then t.(collisions := s.collisions + {s.mapAddr[a.net]}) else t
    else MakeTried(e, t, s.mapAddr[a.net])
  }

  /** The freshness update Add_ applies to an entry it already has. */
  function Refreshed(i: Info, addr: Address, penalty: int, now: int): Info {
    var interval := if now - addr.nTime < 24 * 60 * 60 then 60 * 60 else 24 * 60 * 60;
    var t := if addr.nTime != 0 && (i.nTime == 0 || i.nTime < addr.nTime - interval - penalty)
             then Max0(addr.nTime - penalty) else i.nTime;
    i.(nTime := t, nServices := i.nServices + addr.nServices)
  }

  /** Add_ leaves a known entry's buckets alone. draw is the value of RandomInt(2^refcount). */
  predicate Declines(i: Info, addr: Address, draw: nat) {
    || addr.nTime == 0 || (i.nTime != 0 && addr.nTime <= i.nTime)
    || i.fInTried
    || i.nRefCount == NEW_BUCKETS_PER_ADDRESS
    || (Pow2(Max0(i.nRefCount)) > 1 && draw != 0)
  }

  predicate Overwrites(s: State, id: int, c: Cell, now: int)
    requires id in s.mapInfo
  {
    c in s.vvNew ==>
      && s.vvNew[c] in s.mapInfo
      && var x := s.mapInfo[s.vvNew[c]];
         IsTerrible(x, now) || (x.nRefCount > 1 && s.mapInfo[id].nRefCount == 0)
  }

  predicate CanFile(s: State, id: int, c: Cell, now: int) {
    id in s.mapInfo &&
    (!(c in s.vvNew && s.vvNew[c] == id) ==>
      if Overwrites(s, id, c, now) then CanClear(s, c) && id in ClearNew(s, c).mapInfo
      else s.mapInfo[id].nRefCount == 0 ==> CanDelete(s, id))
  }

  /** The last part of Add_: give id the cell c, unless its holder is worth keeping. */
  function File(s: State, id: int, c: Cell, now: int): State
    requires CanFile(s, id, c, now)
  {
    if c in s.vvNew && s.vvNew[c] == id then s
    else if Overwrites(s, id, c, now) then Enter(ClearNew(s, c), id, c)
    else if s.mapInfo[id].nRefCount == 0 then Delete(s, id)
    else s
  }

  function Penalty(addr: Address, source: NetAddr, penalty: int): int {
    if addr.service.net == source then 0 else penalty
  }

  /** Add_ up to the choice of a bucket. */
  function Recorded(s: State, addr: Address, source: NetAddr, penalty: int, now: int): State {
    var a := addr.service.net;
    var p := Penalty(addr, source, penalty);
    if Known(s, a) then SetInfo(s, s.mapAddr[a], Refreshed(s.mapInfo[s.mapAddr[a]], addr, p, now))
    else var t := Create(s, addr, source, Max0(addr.nTime - p)); t.(nNew := t.nNew + 1)
  }

  predicate Files(e: Env, s: State, addr: Address, source: NetAddr, penalty: int, now: int, draw: nat) {
    && e.routable(addr.service.net)
    && var a := addr.service.net;
       Known(s, a) ==>
         !Declines(Refreshed(s.mapInfo[s.mapAddr[a]], addr, Penalty(addr, source, penalty), now), addr, draw)
  }

  function AddedId(s: State, addr: Address): int {
    if Known(s, addr.service.net) then s.mapAddr[addr.service.net] else s.nIdCount
  }

  predicate CanAdd(e: Env, s: State, addr: Address, source: NetAddr, penalty: int, now: int, draw: nat) {
    Files(e, s, addr, source, penalty, now, draw) ==>
      var t := Recorded(s, addr, source, penalty, now);
      var id := AddedId(s, addr);
      id in t.mapInfo && CanFile(t, id, e.NewCell(s.nKey, t.mapInfo[id].service, source), now)
  }

  function Add(e: Env, s: State, addr: Address, source: NetAddr, penalty: int, now: int, draw: nat): State
    requires CanAdd(e, s, addr, source, penalty, now, draw)
  {
    if !e.routable(addr.service.net) then s else
    var t := Recorded(s, addr, source, penalty, now);
    if !Files(e, s, addr, source, penalty, now, draw) then t
    else
      var id := AddedId(s, addr);
      File(t, id, e.NewCell(s.nKey, t.mapInfo[id].service, source), now)
  }

  function Attempt(s: State, a: Service, countFailure: bool, time: int): State {
    if !Exact(s, a) then s else
    var id := s.mapAddr[a.net];
    var i := s.mapInfo[id].(nLastTry := time);
    SetInfo(s, id, if countFailure && i.nLastCountAttempt < s.nLastGood
                   then i.(nLastCountAttempt := time, nAttempts := i.nAttempts + 1) else i)
  }

  function Connected(s: State, a: Service, time: nat): State {
    if !Exact(s, a) then s else
    var i := s.mapInfo[s.mapAddr[a.net]];
    if time - i.nTime > 20 * 60 then SetInfo(s, s.mapAddr[a.net], i.(nTime := time)) else s
  }

  function SetServices(s: State, a: Service, flags: Services): State {
    if !Exact(s, a) then s
    else SetInfo(s, s.mapAddr[a.net], s.mapInfo[s.mapAddr[a.net]].(nServices := flags))
  }

  /** ResolveCollisions_ swaps id in, or finds the tried cell free. */
  ghost predicate Resolves(e: Env, s: State, id: int, now: int) {
    id in s.mapInfo && e.valid(s.mapInfo[id].service) &&
    var c := e.TriedCell(s.nKey, s.mapInfo[id].service);
    c in s.vvTried ==>
      && s.vvTried[c] in s.mapInfo
      && var holder := s.mapInfo[s.vvTried[c]];
         && now - holder.nLastSuccess >= REPLACEMENT_HOURS * 60 * 60
         && 60 < now - holder.nLastTry < REPLACEMENT_HOURS * 60 * 60
  }

  /** ResolveCollisions_ leaves id for a later call. */
  ghost predicate Postpones(e: Env, s: State, id: int, now: int) {
    id in s.mapInfo && e.valid(s.mapInfo[id].service) &&
    var c := e.TriedCell(s.nKey, s.mapInfo[id].service);
    && c in s.vvTried && s.vvTried[c] in s.mapInfo
    && var holder := s.mapInfo[s.vvTried[c]];
       && now - holder.nLastSuccess >= REPLACEMENT_HOURS * 60 * 60
       && !(60 < now - holder.nLastTry < REPLACEMENT_HOURS * 60 * 60)
  }

  ghost predicate CanResolve(e: Env, s: State, id: int, now: int) {
    Resolves(e, s, id, now) ==> CanGood(e, s, s.mapInfo[id].service, false, now)
  }

  ghost function Resolve(e: Env, s: State, id: int, now: int): State
    requires CanResolve(e, s, id, now)
  {
    var t := if Resolves(e, s, id, now) then Good(e, s, s.mapInfo[id].service, false, now) else s;
    if Postpones(e, s, id, now) then t else t.(collisions := t.collisions - {id})
  }

  /** How many entries GetAddr_ may return. */
  function GetAddrLimit(n: nat): nat {
    var k := GETADDR_MAX_PCT * n / 100;
    if k > GETADDR_MAX then GETADDR_MAX else k
  }

  /** A position from n on, as RandomInt(size - n) + n gives one. */
  function Draw(r: nat, n: nat, size: nat): (k: nat)
    requires n < size
    ensures n <= k < size
  {
    r % (size - n) + n
  }

  predicate Listed(s: State) {
    forall i :: 0 <= i < |s.vRandom| ==> s.vRandom[i] in s.mapInfo
  }

  /** GetAddr_ from its n-th step on: draw a random later entry to position n, keep it if it is any good. */
  function Gather(s: State, n: nat, limit: nat, rnd: nat -> nat, now: int, got: seq<int>): (State, seq<int>)
    requires Listed(s)
    decreases |s.vRandom| - n
  {
    if n >= |s.vRandom| || |got| >= limit then (s, got)
    else
      var t := SwapRandom(s, n, Draw(rnd(n), n, |s.vRandom|));
      var id := t.vRandom[n];
      Gather(t, n + 1, limit, rnd, now, if IsTerrible(t.mapInfo[id], now) then got else got + [id])
  }

  /** SelectTriedCollision_ for the drawn id: the entry it would evict. A vanished id is dropped. */
  function Selected(s: State, id: int): State {
    if id in s.collisions && id !in s.mapInfo then s.(collisions := s.collisions - {id}) else s
  }
}

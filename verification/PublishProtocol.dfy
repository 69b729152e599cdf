/** Publishes of any functions, interleaved at every call to the lock table, the bucket and the catalog.

    A publish is a program counter. A call that is answered has been carried out; a call whose answer is lost may or
    may not have reached its table. Time passes between any two steps, and the lock table may drop expired rows. */
module PublishProtocol {
  import opened Wrappers

  type Name = string
  type Byte = nat
  type Wasm = seq<Byte>
  type Hash = nat
  type PubId = nat

  const MAX_WASM_BYTES := 2 * 1024 * 1024
  const TTL_SECS := 15 * 60

  /** The content hash, and the publish check of a module. */
  datatype Platform = Platform(digest: Wasm -> Hash, validates: Wasm -> bool)

  datatype Error = Compile | PayloadTooLarge | Invoke | Conflict | Storage

  datatype Outcome = Ready | Superseded | Failed(error: Error)

  /** Which call comes next. From `Holding` on the publish has the lock, or believes that it has. */
  datatype Pc =
    | Acquiring
    | Holding
    | Stored
    | Upserted(applied: bool)
    | Unwinding(error: Error)
    | Done(outcome: Outcome)

  /** `expiresAt` and `arrival` record what the publish wrote into the lock, and when its row reached the catalog. */
  datatype Publish = Publish(name: Name, wasm: Wasm, egress: seq<string>, queuedAt: u64, expiresAt: u64,
                             arrival: Option<nat>, pc: Pc)

  datatype LockRow = LockRow(hash: Hash, queuedAt: u64, expiresAt: u64)

  datatype Row = Row(hash: Hash, queuedAt: u64, egress: seq<string>)

  datatype Arrival = Arrival(name: Name, row: Row)

  /** `holder` and `arrivals` only record who wrote the lock rows and which rows reached the catalog; no step looks
      at them. */
  datatype State = State(now: u64, lock: map<Name, LockRow>, bucket: map<Hash, Wasm>, catalog: map<Name, Row>,
                         pubs: map<PubId, Publish>, holder: map<Name, PubId>, arrivals: seq<Arrival>)

  datatype Fate = Answered | Lost(reached: bool)

  datatype Event =
    | Begin(id: PubId, name: Name, wasm: Wasm, egress: seq<string>, queuedAt: u64, taskLost: bool)
    | Acquire(id: PubId, seen: u64, fate: Fate)
    | Put(id: PubId, fate: Fate)
    | Upsert(id: PubId, fate: Fate)
    | Release(id: PubId, fate: Fate)
    | Tick(to: u64)
    | Sweep(name: Name)

  predicate Reached(fate: Fate) { fate.Answered? || fate.reached }

  /** The checks before the first call. Validation runs in a task of its own, which may be lost. */
  function FirstPc(p: Platform, wasm: Wasm, taskLost: bool): Pc {
    if wasm == [] then Done(Failed(Compile))
    else if |wasm| > MAX_WASM_BYTES then Done(Failed(PayloadTooLarge))
    else if taskLost then Done(Failed(Error.Invoke))
    else if !p.validates(wasm) then Done(Failed(Compile))
    else Acquiring
  }

  predicate Critical(pc: Pc) { pc.Holding? || pc.Stored? || pc.Upserted? || pc.Unwinding? }

  // ----- The conditional writes --------------------------------------------------------------

  predicate LockIsFree(s: State, name: Name, seen: u64) { name !in s.lock || s.lock[name].expiresAt <= seen }

  function Expiry(seen: u64): u64 { if seen + TTL_SECS > U64_MAX then U64_MAX else seen + TTL_SECS }

  function WriteLock(s: State, id: PubId, hash: Hash, seen: u64): State
    requires id in s.pubs
  {
    var pub := s.pubs[id];
    s.(lock := s.lock[pub.name := LockRow(hash, pub.queuedAt, Expiry(seen))], holder := s.holder[pub.name := id])
  }

  function DropLock(s: State, name: Name): State { s.(lock := s.lock - {name}, holder := s.holder - {name}) }

  predicate IsNewest(s: State, name: Name, queuedAt: u64) {
    name !in s.catalog || s.catalog[name].queuedAt <= queuedAt
  }

  /** A row reaches the catalog, and replaces the stored one unless that is strictly newer. */
  function Arrive(s: State, name: Name, row: Row): (later: State)
    ensures later.now == s.now && later.lock == s.lock && later.holder == s.holder
    ensures later.bucket == s.bucket && later.pubs == s.pubs
  {
    s.(catalog := if IsNewest(s, name, row.queuedAt) then s.catalog[name := row] else s.catalog,
       arrivals := s.arrivals + [Arrival(name, row)])
  }

  // ----- Steps -----------------------------------------------------------------------------------

  function Move(s: State, id: PubId, pub: Publish): State { s.(pubs := s.pubs[id := pub]) }

  predicate Enabled(s: State, e: Event) {
    match e
    case Begin(id, _, _, _, _, _) => id !in s.pubs
    case Acquire(id, seen, _) => id in s.pubs && s.pubs[id].pc.Acquiring? && seen <= s.now
    case Put(id, _) => id in s.pubs && s.pubs[id].pc.Holding?
    case Upsert(id, _) => id in s.pubs && s.pubs[id].pc.Stored?
    case Release(id, _) => id in s.pubs && (s.pubs[id].pc.Upserted? || s.pubs[id].pc.Unwinding?)
    case Tick(to) => s.now <= to
    case Sweep(name) => name in s.lock && s.lock[name].expiresAt <= s.now
  }

  function StepAcquire(p: Platform, s: State, id: PubId, seen: u64, fate: Fate): State
    requires Enabled(s, Acquire(id, seen, fate))
  {
    var pub, free := s.pubs[id], LockIsFree(s, s.pubs[id].name, seen);
    var pc := if fate.Lost? then Done(Failed(Storage)) else if free then Holding else Done(Failed(Conflict));
    if free && Reached(fate) then
      Move(WriteLock(s, id, p.digest(pub.wasm), seen), id, pub.(expiresAt := Expiry(seen), pc := pc))
    else Move(s, id, pub.(pc := pc))
  }

  function StepPut(p: Platform, s: State, id: PubId, fate: Fate): State
    requires Enabled(s, Put(id, fate))
  {
    var pub := s.pubs[id];
    Move(if Reached(fate) then s.(bucket := s.bucket[p.digest(pub.wasm) := pub.wasm]) else s, id,
         pub.(pc := if fate.Answered? then Stored else Unwinding(Storage)))
  }

  function StepUpsert(p: Platform, s: State, id: PubId, fate: Fate): State
    requires Enabled(s, Upsert(id, fate))
  {
    var pub := s.pubs[id];
    var pc := if fate.Answered? then Upserted(IsNewest(s, pub.name, pub.queuedAt)) else Unwinding(Storage);
    if Reached(fate) then
      Move(Arrive(s, pub.name, Row(p.digest(pub.wasm), pub.queuedAt, pub.egress)), id,
           pub.(arrival := Some(|s.arrivals|), pc := pc))
    else Move(s, id, pub.(pc := pc))
  }

  /** The row goes if its hash matches, whoever wrote it. */
  function StepRelease(p: Platform, s: State, id: PubId, fate: Fate): State
    requires Enabled(s, Release(id, fate))
  {
    var pub := s.pubs[id];
    var drops := Reached(fate) && pub.name in s.lock && s.lock[pub.name].hash == p.digest(pub.wasm);
    var outcome :=
      if pub.pc.Unwinding? then Failed(pub.pc.error)
      else if fate.Lost? then Failed(Storage)
      else if pub.pc.applied then Ready else Superseded;
    Move(if drops then DropLock(s, pub.name) else s, id, pub.(pc := Done(outcome)))
  }

  function Step(p: Platform, s: State, e: Event): State
    requires Enabled(s, e)
  {
    match e
    case Begin(id, name, wasm, egress, queuedAt, taskLost) =>
      Move(s, id, Publish(name, wasm, egress, queuedAt, 0, None, FirstPc(p, wasm, taskLost)))
    case Acquire(id, seen, fate) => StepAcquire(p, s, id, seen, fate)
    case Put(id, fate) => StepPut(p, s, id, fate)
    case Upsert(id, fate) => StepUpsert(p, s, id, fate)
    case Release(id, fate) => StepRelease(p, s, id, fate)
    case Tick(to) => s.(now := to)
    case Sweep(name) => DropLock(s, name)
  }

  const INITIAL := State(0, map[], map[], map[], map[], map[], [])

  /** The state behind a sequence of events from empty tables, `None` if some event is not enabled. */
  ghost function Play(p: Platform, run: seq<Event>): Option<State> {
    if run == [] then Some(INITIAL)
    else
      var before :- Play(p, run[..|run| - 1]);
      var e := run[|run| - 1];
      if Enabled(before, e) then Some(Step(p, before, e)) else None
  }
}

/** The publish use case as the code runs it, with its early exits, over the lock table, the bucket and the catalog.
    Nothing else writes to them meanwhile; `PublishProtocol` lets anything happen between the same calls. */
module PublishFunction {
  import opened Wrappers
  import opened Results
  import opened PublishProtocol
  import opened ModuleCache

  class DynamoDbPublishLock {
    var rows: map<Name, LockRow>

    constructor ()
      ensures rows == map[]
    {
      rows := map[];
    }

    predicate IsFree(name: Name, now: u64)
      reads this
    {
      name !in rows || rows[name].expiresAt <= now
    }

    /** A row that has expired is taken over. */
    method Acquire(name: Name, hash: Hash, queuedAt: u64, now: u64, fate: Fate) returns (r: Result<(), Error>)
      modifies this
      ensures r.Ok? <==> fate.Answered? && old(IsFree(name, now))
      ensures r.Err? ==> r.error == if fate.Answered? then Conflict else Storage
      ensures rows == if old(IsFree(name, now)) && Reached(fate)
                      then old(rows)[name := LockRow(hash, queuedAt, Expiry(now))] else old(rows)
      ensures Expiry(now) == if now + 900 <= U64_MAX then now + 900 else U64_MAX
    {
      var expiresAt := if now + TTL_SECS > U64_MAX then U64_MAX else now + TTL_SECS;
      var free := IsFree(name, now);
      if free && Reached(fate) { rows := rows[name := LockRow(hash, queuedAt, expiresAt)]; }
      return if fate.Lost? then Err(Storage) else if free then Ok(()) else Err(Conflict);
    }

    /** A row with another hash, or no row at all, is not an error. */
    method Release(name: Name, hash: Hash, fate: Fate) returns (r: Result<(), Error>)
      modifies this
      ensures r == if fate.Answered? then Ok(()) else Err(Storage)
      ensures rows == if Reached(fate) && name in old(rows) && old(rows)[name].hash == hash
                      then old(rows) - {name} else old(rows)
    {
      if Reached(fate) && name in rows && rows[name].hash == hash { rows := rows - {name}; }
      return if fate.Answered? then Ok(()) else Err(Storage);
    }
  }

  datatype Decoded = Complete | Malformed | Incomplete

  class DynamoDbFunctionCatalog {
    var rows: map<Name, Row>

    constructor ()
      ensures rows == map[]
    {
      rows := map[];
    }

    /** The row replaces one that is not strictly newer; the answer tells whether it did. */
    method Upsert(name: Name, row: Row, fate: Fate) returns (r: Result<bool, Error>)
      modifies this
      ensures fate.Answered? ==> r == Ok(name !in old(rows) || old(rows)[name].queuedAt <= row.queuedAt)
      ensures fate.Lost? ==> r == Err(Storage)
      ensures rows == if Reached(fate) && (name !in old(rows) || old(rows)[name].queuedAt <= row.queuedAt)
                      then old(rows)[name := row] else old(rows)
    {
      var newest := name !in rows || rows[name].queuedAt <= row.queuedAt;
      if Reached(fate) && newest { rows := rows[name := row]; }
      return if fate.Answered? then Ok(newest) else Err(Storage);
    }

    /** `decoded` is what becomes of the item: it is read, cannot be decoded, or lacks an attribute. */
    method Resolve(name: Name, fails: bool, decoded: Decoded) returns (r: Result<Row, AppError>)
      ensures r.Ok? <==> !fails && name in rows && decoded.Complete?
      ensures r.Ok? ==> r.value == rows[name]
      ensures r == Err(Pipeline.NotFound) <==> !fails && name !in rows
      ensures r == Err(Pipeline.Domain) <==> !fails && name in rows && decoded.Malformed?
      ensures r == Err(Pipeline.Storage) <==> fails || (name in rows && decoded.Incomplete?)
    {
      if fails { return Err(Pipeline.Storage); }
      if name !in rows { return Err(Pipeline.NotFound); }
      match decoded
      case Complete => return Ok(rows[name]);
      case Malformed => return Err(Pipeline.Domain);
      case Incomplete => return Err(Pipeline.Storage);
    }
  }

  /** What becomes of the calls of one publish. */
  datatype Fates = Fates(acquire: Fate, put: Fate, upsert: Fate, release: Fate)

  /** The protocol's steps of publish `id`, one after another. */
  function Alone(p: Platform, s: State, id: PubId, seen: u64, f: Fates): (later: State)
    requires id in s.pubs && s.pubs[id].pc.Acquiring? && seen <= s.now
    ensures id in later.pubs && later.pubs[id].pc.Done?
  {
    var acquired := StepAcquire(p, s, id, seen, f.acquire);
    if acquired.pubs[id].pc.Done? then acquired
    else
      var stored := StepPut(p, acquired, id, f.put);
      var upserted := if stored.pubs[id].pc.Stored? then StepUpsert(p, stored, id, f.upsert) else stored;
      StepRelease(p, upserted, id, f.release)
  }

  /** The same in one go: what the publish leaves in each table, and what it answers. */
  lemma AloneGives(p: Platform, s: State, id: PubId, seen: u64, f: Fates)
    requires id in s.pubs && s.pubs[id].pc.Acquiring? && seen <= s.now
    ensures var pub, later := s.pubs[id], Alone(p, s, id, seen, f);
            var hash, free := p.digest(pub.wasm), LockIsFree(s, pub.name, seen);
            var newest, locked := IsNewest(s, pub.name, pub.queuedAt), LockRow(hash, pub.queuedAt, Expiry(seen));
            && later.lock ==
                 (var taken := if free && Reached(f.acquire) then s.lock[pub.name := locked] else s.lock;
                  if free && f.acquire.Answered? && Reached(f.release) then taken - {pub.name} else taken)
            && later.bucket ==
                 (if free && f.acquire.Answered? && Reached(f.put) then s.bucket[hash := pub.wasm] else s.bucket)
            && later.catalog == (if free && f.acquire.Answered? && f.put.Answered? && Reached(f.upsert) && newest
                                 then s.catalog[pub.name := Row(hash, pub.queuedAt, pub.egress)] else s.catalog)
            && later.pubs[id].pc == Done(
              if f.acquire.Lost? then Failed(Storage)
              else if !free then Failed(Conflict)
              else if f.put.Lost? || f.upsert.Lost? || f.release.Lost? then Failed(Storage)
              else if newest then Ready else Superseded)
  {
    hide Step, StepAcquire, StepPut, StepUpsert, StepRelease;
    AcquireGives(p, s, id, seen, f.acquire);
    var acquired := StepAcquire(p, s, id, seen, f.acquire);
    if acquired.pubs[id].pc.Holding? {
      PutGives(p, acquired, id, f.put);
      var stored := StepPut(p, acquired, id, f.put);
      if stored.pubs[id].pc.Stored? {
        UpsertGives(p, stored, id, f.upsert);
        ReleaseGives(p, StepUpsert(p, stored, id, f.upsert), id, f.release);
      } else {
        ReleaseGives(p, stored, id, f.release);
      }
    }
  }

  /** What a publish asks for never changes. */
  ghost predicate SameRequest(pub: Publish, later: Publish) {
    pub.name == later.name && pub.wasm == later.wasm && pub.queuedAt == later.queuedAt && pub.egress == later.egress
  }

  lemma AcquireGives(p: Platform, s: State, id: PubId, seen: u64, fate: Fate)
    requires Enabled(s, Acquire(id, seen, fate))
    ensures var pub, later := s.pubs[id], StepAcquire(p, s, id, seen, fate);
            var free, locked :=
              LockIsFree(s, pub.name, seen), LockRow(p.digest(pub.wasm), pub.queuedAt, Expiry(seen));
            && later.bucket == s.bucket && later.catalog == s.catalog
            && id in later.pubs && SameRequest(pub, later.pubs[id])
            && later.lock == (if free && Reached(fate) then s.lock[pub.name := locked] else s.lock)
            && later.pubs[id].pc ==
                 if fate.Lost? then Done(Failed(Storage)) else if free then Holding else Done(Failed(Conflict))
  {
  }

  lemma PutGives(p: Platform, s: State, id: PubId, fate: Fate)
    requires Enabled(s, Put(id, fate))
    ensures var pub, later := s.pubs[id], StepPut(p, s, id, fate);
            && later.lock == s.lock && later.catalog == s.catalog
            && id in later.pubs && SameRequest(pub, later.pubs[id])
            && later.bucket == (if Reached(fate) then s.bucket[p.digest(pub.wasm) := pub.wasm] else s.bucket)
            && later.pubs[id].pc == if fate.Answered? then Stored else Unwinding(Storage)
  {
  }

  lemma UpsertGives(p: Platform, s: State, id: PubId, fate: Fate)
    requires Enabled(s, Upsert(id, fate))
    ensures var pub, later := s.pubs[id], StepUpsert(p, s, id, fate);
            var newest, row :=
              IsNewest(s, pub.name, pub.queuedAt), Row(p.digest(pub.wasm), pub.queuedAt, pub.egress);
            && later.lock == s.lock && later.bucket == s.bucket
            && id in later.pubs && SameRequest(pub, later.pubs[id])
            && later.catalog == (if Reached(fate) && newest then s.catalog[pub.name := row] else s.catalog)
            && later.pubs[id].pc == if fate.Answered? then Upserted(newest) else Unwinding(Storage)
  {
  }

  lemma ReleaseGives(p: Platform, s: State, id: PubId, fate: Fate)
    requires Enabled(s, Release(id, fate))
    ensures var pub, later := s.pubs[id], StepRelease(p, s, id, fate);
            && later.bucket == s.bucket && later.catalog == s.catalog && id in later.pubs
            && later.lock ==
                 (if Reached(fate) && pub.name in s.lock && s.lock[pub.name].hash == p.digest(pub.wasm)
                  then s.lock - {pub.name} else s.lock)
            && later.pubs[id].pc == Done(
              if pub.pc.Unwinding? then Failed(pub.pc.error)
              else if fate.Lost? then Failed(Storage)
              else if pub.pc.applied then Ready else Superseded)
  {
  }

  class PublishFunction {
    const lock: DynamoDbPublishLock
    const artifacts: S3ArtifactStore
    const catalog: DynamoDbFunctionCatalog
    const runner: WasmtimeRunner

    constructor (lock: DynamoDbPublishLock, artifacts: S3ArtifactStore, catalog: DynamoDbFunctionCatalog,
                 runner: WasmtimeRunner)
      ensures this.lock == lock && this.artifacts == artifacts && this.catalog == catalog && this.runner == runner
    {
      this.lock, this.artifacts, this.catalog, this.runner := lock, artifacts, catalog, runner;
    }

    ghost predicate Shows(s: State)
      reads lock, artifacts, catalog
    {
      lock.rows == s.lock && artifacts.bucket == s.bucket && catalog.rows == s.catalog
    }

    /** Bytes that fail the checks change nothing; otherwise the tables and the outcome are those of the protocol's
        steps for this publish. */
    method Execute(name: Name, wasm: Wasm, egress: seq<string>, queuedAt: u64, now: u64, taskLost: bool, f: Fates,
                   ghost p: Platform, ghost s: State, ghost id: PubId) returns (outcome: Outcome)
      requires artifacts.tools == runner.tools && p.digest == runner.tools.digest
      requires forall w :: p.validates(w) <==> PassesPublish(runner.tools, w)
      requires Shows(s) && now <= s.now
      requires id in s.pubs
      requires s.pubs[id] == Publish(name, wasm, egress, queuedAt, 0, None, FirstPc(p, wasm, taskLost))
      modifies lock, artifacts`bucket, catalog
      ensures FirstPc(p, wasm, taskLost).Done? ==> outcome == FirstPc(p, wasm, taskLost).outcome && Shows(s)
      ensures FirstPc(p, wasm, taskLost).Acquiring? ==>
        var later := Alone(p, s, id, now, f); Shows(later) && later.pubs[id].pc == Done(outcome)
    {
      hide Alone, StepAcquire, StepPut, StepUpsert, StepRelease, PassesPublish, Expiry;
      if FirstPc(p, wasm, taskLost).Acquiring? { AloneGives(p, s, id, now, f); }
      if |wasm| == 0 { return Failed(Compile); }
      if |wasm| > MAX_WASM_BYTES { return Failed(PayloadTooLarge); }
      var valid := runner.Validate(wasm, taskLost);
      if valid.Err? { return Failed(if taskLost then Error.Invoke else Compile); }
      var hash := runner.tools.digest(wasm);
      var acquired := lock.Acquire(name, hash, queuedAt, now, f.acquire);
      if acquired.Err? { return Failed(acquired.error); }
      var stored := artifacts.Put(wasm, f.put);
      if stored.Err? {
        var _ := lock.Release(name, hash, f.release);
        return Failed(Storage);
      }
      var applied := catalog.Upsert(name, Row(hash, queuedAt, egress), f.upsert);
      if applied.Err? {
        var _ := lock.Release(name, hash, f.release);
        return Failed(applied.error);
      }
      var released := lock.Release(name, hash, f.release);
      if released.Err? { return Failed(released.error); }
      return if applied.value then Ready else Superseded;
    }
  }

  /** A publish that runs alone on a free name leaves the lock held exactly when its acquire went through without an
      answer, or its acquire was answered and its release did not go through. */
  lemma LockAfterwards(p: Platform, s: State, id: PubId, seen: u64, f: Fates)
    requires id in s.pubs && s.pubs[id].pc.Acquiring? && seen <= s.now && LockIsFree(s, s.pubs[id].name, seen)
    requires s.pubs[id].name !in s.lock
    ensures s.pubs[id].name in Alone(p, s, id, seen, f).lock
       <==> f.acquire == Lost(true) || (f.acquire.Answered? && !Reached(f.release))
  {
    hide Alone;
    AloneGives(p, s, id, seen, f);
  }
}

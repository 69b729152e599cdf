/** What publishes guarantee, in every run. */
module PublishTheorems {
  import opened Wrappers
  import opened PublishProtocol

  // ----- The invariant ---------------------------------------------------------------------------

  ghost predicate Gate(p: Platform, wasm: Wasm) { 1 <= |wasm| <= MAX_WASM_BYTES && p.validates(wasm) }

  /** The lock row of a name was written by a publish of that name that got through `acquire`'s condition. */
  ghost predicate LockOk(p: Platform, s: State) {
    && s.lock.Keys == s.holder.Keys
    && forall n <- s.lock :: s.holder[n] in s.pubs && Wrote(p, n, s.lock[n], s.pubs[s.holder[n]])
  }

  ghost predicate Wrote(p: Platform, n: Name, row: LockRow, pub: Publish) {
    pub.name == n && row.hash == p.digest(pub.wasm) && row.expiresAt == pub.expiresAt && !pub.pc.Acquiring?
  }

  /** Every object hashes to its key and passed the checks of publish. */
  ghost predicate BucketOk(p: Platform, bucket: map<Hash, Wasm>) {
    forall h <- bucket :: p.digest(bucket[h]) == h && Gate(p, bucket[h])
  }

  ghost predicate Backed(bucket: map<Hash, Wasm>, arrivals: seq<Arrival>) {
    forall k :: 0 <= k < |arrivals| ==> arrivals[k].row.hash in bucket
  }

  /** Nothing that reached the catalog for `n` is newer than arrival `k`, nor as new and later. */
  ghost predicate IsLatest(arrivals: seq<Arrival>, n: Name, k: nat) {
    && k < |arrivals| && arrivals[k].name == n
    && forall j :: 0 <= j < |arrivals| && arrivals[j].name == n ==>
      arrivals[j].row.queuedAt <= arrivals[k].row.queuedAt
      && (j > k ==> arrivals[j].row.queuedAt < arrivals[k].row.queuedAt)
  }

  ghost predicate StoresLatest(catalog: map<Name, Row>, arrivals: seq<Arrival>, n: Name) {
    if n in catalog then exists k: nat :: IsLatest(arrivals, n, k) && arrivals[k].row == catalog[n]
    else forall j :: 0 <= j < |arrivals| ==> arrivals[j].name != n
  }

  ghost predicate CatalogOk(catalog: map<Name, Row>, arrivals: seq<Arrival>) {
    forall n :: StoresLatest(catalog, arrivals, n)
  }

  /** When arrival `k` came, no strictly newer row of its name had come before it. */
  ghost predicate WasNewest(arrivals: seq<Arrival>, k: nat)
    requires k < |arrivals|
  {
    forall j :: 0 <= j < k && arrivals[j].name == arrivals[k].name ==>
      arrivals[j].row.queuedAt <= arrivals[k].row.queuedAt
  }

  ghost predicate Arrived(p: Platform, arrivals: seq<Arrival>, pub: Publish) {
    && pub.arrival.Some? && pub.arrival.value < |arrivals|
    && arrivals[pub.arrival.value] == Arrival(pub.name, Row(p.digest(pub.wasm), pub.queuedAt, pub.egress))
  }

  ghost predicate PubOk(p: Platform, bucket: map<Hash, Wasm>, arrivals: seq<Arrival>, pub: Publish) {
    && (!pub.pc.Done? ==> Gate(p, pub.wasm))
    && (pub.pc.Stored? ==> p.digest(pub.wasm) in bucket)
    && (pub.arrival.Some? ==> Arrived(p, arrivals, pub))
    && (pub.pc.Upserted? ==> pub.arrival.Some? && (pub.pc.applied <==> WasNewest(arrivals, pub.arrival.value)))
    && (pub.pc.Done? && !pub.pc.outcome.Failed? ==>
          pub.arrival.Some? && (pub.pc.outcome.Ready? <==> WasNewest(arrivals, pub.arrival.value)))
  }

  ghost predicate PubsOk(p: Platform, s: State) {
    forall id <- s.pubs :: PubOk(p, s.bucket, s.arrivals, s.pubs[id])
  }

  ghost predicate Inv(p: Platform, s: State) {
    LockOk(p, s) && BucketOk(p, s.bucket) && Backed(s.bucket, s.arrivals) && CatalogOk(s.catalog, s.arrivals)
    && PubsOk(p, s)
  }

  // ----- Every step keeps it -------------------------------------------------------------------------

  lemma OthersKeep(p: Platform, s: State, later: State, id: PubId, pub: Publish)
    requires PubsOk(p, s) && PubOk(p, later.bucket, later.arrivals, pub)
    requires later.pubs == s.pubs[id := pub]
    requires s.bucket.Keys <= later.bucket.Keys && s.arrivals <= later.arrivals
    ensures PubsOk(p, later)
  {
    forall o <- later.pubs
      ensures PubOk(p, later.bucket, later.arrivals, later.pubs[o])
    {
      if o != id { PubOkIsStable(p, s, later, s.pubs[o]); }
    }
  }

  lemma PubOkIsStable(p: Platform, s: State, later: State, pub: Publish)
    requires PubOk(p, s.bucket, s.arrivals, pub)
    requires s.bucket.Keys <= later.bucket.Keys && s.arrivals <= later.arrivals
    ensures PubOk(p, later.bucket, later.arrivals, pub)
  {
    if pub.arrival.Some? {
      assert forall j :: 0 <= j <= pub.arrival.value ==> later.arrivals[j] == s.arrivals[j];
    }
  }

  /** A row that reaches the catalog leaves the latest row of every name stored. */
  lemma ArriveKeepsCatalog(s: State, name: Name, row: Row)
    requires CatalogOk(s.catalog, s.arrivals)
    ensures CatalogOk(Arrive(s, name, row).catalog, Arrive(s, name, row).arrivals)
    ensures IsNewest(s, name, row.queuedAt) <==> WasNewest(Arrive(s, name, row).arrivals, |s.arrivals|)
  {
    var later := Arrive(s, name, row);
    assert forall j :: 0 <= j < |s.arrivals| ==> later.arrivals[j] == s.arrivals[j];
    forall n
      ensures StoresLatest(later.catalog, later.arrivals, n)
    {
      assert StoresLatest(s.catalog, s.arrivals, n);
      if n in s.catalog {
        var k: nat :| IsLatest(s.arrivals, n, k) && s.arrivals[k].row == s.catalog[n];
        assert IsLatest(later.arrivals, n, if n == name && IsNewest(s, name, row.queuedAt) then |s.arrivals| else k);
      } else if n == name {
        assert IsLatest(later.arrivals, n, |s.arrivals|);
      }
    }
    assert StoresLatest(s.catalog, s.arrivals, name);
    if name in s.catalog {
      var k: nat :| IsLatest(s.arrivals, name, k) && s.arrivals[k].row == s.catalog[name];
      assert later.arrivals[k] == s.arrivals[k];
    }
  }

  /** A step of publish `id` that leaves the lock table alone. */
  lemma LockStays(p: Platform, s: State, later: State, id: PubId)
    requires LockOk(p, s) && id in s.pubs
    requires later.lock == s.lock && later.holder == s.holder
    requires id in later.pubs && later.pubs == s.pubs[id := later.pubs[id]]
    requires forall n, row :: Wrote(p, n, row, s.pubs[id]) ==> Wrote(p, n, row, later.pubs[id])
    ensures LockOk(p, later)
  {
    forall n <- later.lock
      ensures later.holder[n] in later.pubs && Wrote(p, n, later.lock[n], later.pubs[later.holder[n]])
    {
      assert Wrote(p, n, s.lock[n], s.pubs[s.holder[n]]);
    }
  }

  lemma AcquireKeeps(p: Platform, s: State, id: PubId, seen: u64, fate: Fate)
    requires Inv(p, s) && Enabled(s, Acquire(id, seen, fate))
    ensures Inv(p, Step(p, s, Acquire(id, seen, fate)))
  {
    hide CatalogOk, BucketOk, Backed, PubsOk, Gate, LockOk, WasNewest;
    var later := Step(p, s, Acquire(id, seen, fate));
    PubOkOf(p, s, id);
    OthersKeep(p, s, later, id, later.pubs[id]);
    AcquireLock(p, s, id, seen, fate);
  }

  lemma AcquireLock(p: Platform, s: State, id: PubId, seen: u64, fate: Fate)
    requires LockOk(p, s) && Enabled(s, Acquire(id, seen, fate))
    ensures LockOk(p, Step(p, s, Acquire(id, seen, fate)))
  {
    var later, free := Step(p, s, Acquire(id, seen, fate)), LockIsFree(s, s.pubs[id].name, seen);
    if !(free && Reached(fate)) { LockStays(p, s, later, id); }
  }

  lemma PubOkOf(p: Platform, s: State, id: PubId)
    requires PubsOk(p, s) && id in s.pubs
    ensures PubOk(p, s.bucket, s.arrivals, s.pubs[id])
  {
  }

  lemma PutKeeps(p: Platform, s: State, id: PubId, fate: Fate)
    requires Inv(p, s) && Enabled(s, Put(id, fate))
    ensures Inv(p, Step(p, s, Put(id, fate)))
  {
    hide CatalogOk, LockOk, PubsOk, Gate;
    var later := Step(p, s, Put(id, fate));
    PubOkOf(p, s, id);
    OthersKeep(p, s, later, id, later.pubs[id]);
    LockStays(p, s, later, id);
  }

  lemma UpsertKeeps(p: Platform, s: State, id: PubId, fate: Fate)
    requires Inv(p, s) && Enabled(s, Upsert(id, fate))
    ensures Inv(p, Step(p, s, Upsert(id, fate)))
  {
    hide CatalogOk, LockOk, BucketOk, PubsOk, PubOk, Gate, IsNewest, WasNewest;
    var later, pub := Step(p, s, Upsert(id, fate)), s.pubs[id];
    PubOkOf(p, s, id);
    UpsertOwnOk(p, s, id, fate);
    ArriveKeepsCatalog(s, pub.name, Row(p.digest(pub.wasm), pub.queuedAt, pub.egress));
    OthersKeep(p, s, later, id, later.pubs[id]);
    LockStays(p, s, later, id);
    UpsertIsBacked(p, s, id);
  }

  lemma UpsertOwnOk(p: Platform, s: State, id: PubId, fate: Fate)
    requires Enabled(s, Upsert(id, fate)) && PubOk(p, s.bucket, s.arrivals, s.pubs[id])
    requires CatalogOk(s.catalog, s.arrivals)
    ensures var later := Step(p, s, Upsert(id, fate));
            PubOk(p, later.bucket, later.arrivals, later.pubs[id]) && s.arrivals <= later.arrivals
  {
    hide CatalogOk, IsNewest, WasNewest, Gate;
    var pub := s.pubs[id];
    ArriveKeepsCatalog(s, pub.name, Row(p.digest(pub.wasm), pub.queuedAt, pub.egress));
  }

  lemma UpsertIsBacked(p: Platform, s: State, id: PubId)
    requires id in s.pubs && s.pubs[id].pc.Stored? && PubOk(p, s.bucket, s.arrivals, s.pubs[id])
    requires Backed(s.bucket, s.arrivals)
    ensures var pub := s.pubs[id];
            Backed(s.bucket, Arrive(s, pub.name, Row(p.digest(pub.wasm), pub.queuedAt, pub.egress)).arrivals)
  {
  }

  lemma ReleaseKeeps(p: Platform, s: State, id: PubId, fate: Fate)
    requires Inv(p, s) && Enabled(s, Release(id, fate))
    ensures Inv(p, Step(p, s, Release(id, fate)))
  {
    hide CatalogOk, BucketOk, Backed, PubsOk, Gate, WasNewest;
    var later := Step(p, s, Release(id, fate));
    PubOkOf(p, s, id);
    OthersKeep(p, s, later, id, later.pubs[id]);
  }

  lemma BeginKeeps(p: Platform, s: State, e: Event)
    requires Inv(p, s) && e.Begin? && Enabled(s, e)
    ensures Inv(p, Step(p, s, e))
  {
    hide CatalogOk, BucketOk, Backed, PubsOk;
    var later := Step(p, s, e);
    OthersKeep(p, s, later, e.id, later.pubs[e.id]);
  }

  lemma StepKeeps(p: Platform, s: State, e: Event)
    requires Inv(p, s) && Enabled(s, e)
    ensures Inv(p, Step(p, s, e))
  {
    hide CatalogOk, BucketOk, Gate, StepAcquire, StepPut, StepUpsert, StepRelease;
    match e
    case Begin(_, _, _, _, _, _) => BeginKeeps(p, s, e);
    case Acquire(id, seen, fate) => AcquireKeeps(p, s, id, seen, fate);
    case Put(id, fate) => PutKeeps(p, s, id, fate);
    case Upsert(id, fate) => UpsertKeeps(p, s, id, fate);
    case Release(id, fate) => ReleaseKeeps(p, s, id, fate);
    case Tick(_) => {}
    case Sweep(_) => {}
  }

  lemma {:induction false} Reachable(p: Platform, run: seq<Event>)
    requires Play(p, run).Some?
    ensures Inv(p, Play(p, run).value)
    decreases |run|
  {
    hide Inv, Step, Enabled;
    if run == [] {
      assert Inv(p, INITIAL) by { InitialOk(p); }
    } else {
      Reachable(p, run[..|run| - 1]);
      StepKeeps(p, Play(p, run[..|run| - 1]).value, run[|run| - 1]);
    }
  }

  lemma InitialOk(p: Platform)
    ensures Inv(p, INITIAL)
  {
  }

  // ----- The catalog, whatever became of the lock ----------------------------------------------------

  /** The stored row of a name is the last of the newest rows that reached the catalog for it, hash, generation and
      egress list together; there is none exactly when no row did. */
  lemma CatalogStoresLatest(p: Platform, run: seq<Event>, n: Name)
    requires Play(p, run).Some?
    ensures var s := Play(p, run).value; StoresLatest(s.catalog, s.arrivals, n)
  {
    Reachable(p, run);
  }

  /** A publish reports "superseded" exactly when a strictly newer row of its name had reached the catalog before its
      own, and its own did reach it. */
  lemma SupersededExactly(p: Platform, run: seq<Event>, id: PubId)
    requires Play(p, run).Some? && id in Play(p, run).value.pubs
    requires var pc := Play(p, run).value.pubs[id].pc; pc.Done? && !pc.outcome.Failed?
    ensures var s := Play(p, run).value; var pub := s.pubs[id];
            && Arrived(p, s.arrivals, pub)
            && (pub.pc.outcome.Superseded? <==>
                exists j :: 0 <= j < pub.arrival.value
                  && s.arrivals[j].name == pub.name && s.arrivals[j].row.queuedAt > pub.queuedAt)
  {
    Reachable(p, run);
    PubOkOf(p, Play(p, run).value, id);
  }

  /** Every row that ever reached the catalog, so also what a stale read returns, names an object that is there,
      hashes to its key, is neither empty nor too large, and passed the publish check: in every run, stolen locks and
      lost answers included. */
  lemma RowsAreBacked(p: Platform, run: seq<Event>, k: nat)
    requires Play(p, run).Some? && k < |Play(p, run).value.arrivals|
    ensures var s := Play(p, run).value; var h := s.arrivals[k].row.hash;
            && h in s.bucket && p.digest(s.bucket[h]) == h
            && 1 <= |s.bucket[h]| <= MAX_WASM_BYTES && p.validates(s.bucket[h])
  {
    hide CatalogOk, PubsOk, LockOk;
    Reachable(p, run);
  }

  // ----- The lock --------------------------------------------------------------------------------------

  ghost predicate Holds(s: State, id: PubId)
    requires id in s.pubs
  {
    s.pubs[id].name in s.lock && s.pubs[id].name in s.holder && s.holder[s.pubs[id].name] == id
  }

  /** Between acquire and release, and before the expiry that it wrote into the lock. */
  ghost predicate Active(s: State, id: PubId) {
    id in s.pubs && Critical(s.pubs[id].pc) && s.now < s.pubs[id].expiresAt
  }

  /** A release that reaches the table while another publish of the same name and hash is active. */
  ghost predicate FreesAnother(p: Platform, s: State, e: Event, o: PubId) {
    && e.Release? && Reached(e.fate) && e.id in s.pubs && o != e.id && Active(s, o)
    && s.pubs[o].name == s.pubs[e.id].name && p.digest(s.pubs[o].wasm) == p.digest(s.pubs[e.id].wasm)
  }

  ghost predicate NoForeignRelease(p: Platform, s: State, e: Event) { forall o <- s.pubs :: !FreesAnother(p, s, e, o) }

  /** No release of the run frees the lock of another publish that is active. */
  ghost predicate Undisturbed(p: Platform, run: seq<Event>)
    requires Play(p, run).Some?
  {
    run != [] ==>
      var before := run[..|run| - 1];
      Undisturbed(p, before) && NoForeignRelease(p, Play(p, before).value, run[|run| - 1])
  }

  ghost predicate ActiveHold(s: State) { forall id <- s.pubs :: Active(s, id) ==> Holds(s, id) }

  /** At every moment of the run every active publish holds its lock. */
  ghost predicate AlwaysHeld(p: Platform, run: seq<Event>)
    requires Play(p, run).Some?
  {
    ActiveHold(Play(p, run).value) && (run != [] ==> AlwaysHeld(p, run[..|run| - 1]))
  }

  /** When the lock works, exactly: whatever crashes, overruns, loses answers or is swept away, every active publish
      holds its lock at every moment of a run if and only if no release of the run finds another active publish of the
      same name and the same bytes. */
  lemma {:induction false} LockWorksExactly(p: Platform, run: seq<Event>)
    requires Play(p, run).Some?
    ensures AlwaysHeld(p, run) <==> Undisturbed(p, run)
    decreases |run|
  {
    hide Inv, Step, Enabled, ActiveHold, NoForeignRelease;
    if run == [] {
      assert ActiveHold(INITIAL) by { NobodyIsActive(); }
    } else {
      var before := run[..|run| - 1];
      LockWorksExactly(p, before);
      Reachable(p, before);
      if ActiveHold(Play(p, before).value) { ActiveStep(p, Play(p, before).value, run[|run| - 1]); }
    }
  }

  lemma NobodyIsActive()
    ensures ActiveHold(INITIAL)
  {
  }

  lemma ActiveStep(p: Platform, s: State, e: Event)
    requires Inv(p, s) && ActiveHold(s) && Enabled(s, e)
    ensures ActiveHold(Step(p, s, e)) <==> NoForeignRelease(p, s, e)
  {
    hide CatalogOk, BucketOk, Backed, PubsOk;
    match e
    case Acquire(id, seen, fate) => ActiveAcquire(p, s, id, seen, fate);
    case Release(id, fate) => ActiveRelease(p, s, id, fate);
    case _ => ActiveOther(p, s, e);
  }

  lemma ActiveAcquire(p: Platform, s: State, id: PubId, seen: u64, fate: Fate)
    requires LockOk(p, s) && ActiveHold(s) && Enabled(s, Acquire(id, seen, fate))
    ensures ActiveHold(StepAcquire(p, s, id, seen, fate))
  {
    var later := StepAcquire(p, s, id, seen, fate);
    forall o <- later.pubs | Active(later, o)
      ensures Holds(later, o)
    {
      if o != id { RowOfActive(p, s, o); }
    }
  }

  /** The row that an active publish holds has not expired. */
  lemma RowOfActive(p: Platform, s: State, o: PubId)
    requires LockOk(p, s) && ActiveHold(s) && Active(s, o)
    ensures Holds(s, o) && Wrote(p, s.pubs[o].name, s.lock[s.pubs[o].name], s.pubs[o])
    ensures s.now < s.lock[s.pubs[o].name].expiresAt
  {
  }

  lemma ActiveRelease(p: Platform, s: State, id: PubId, fate: Fate)
    requires LockOk(p, s) && ActiveHold(s) && Enabled(s, Release(id, fate))
    ensures ActiveHold(StepRelease(p, s, id, fate)) <==> NoForeignRelease(p, s, Release(id, fate))
  {
    var e, later := Release(id, fate), StepRelease(p, s, id, fate);
    forall o <- s.pubs | o != id && Active(s, o)
      ensures Active(later, o) && (Holds(later, o) <==> !FreesAnother(p, s, e, o))
    {
      RowOfActive(p, s, o);
    }
    assert !Active(later, id) && !FreesAnother(p, s, e, id);
  }

  lemma ActiveOther(p: Platform, s: State, e: Event)
    requires LockOk(p, s) && ActiveHold(s) && Enabled(s, e) && !e.Acquire? && !e.Release?
    ensures ActiveHold(Step(p, s, e))
  {
    hide IsNewest, Arrive, StepAcquire, StepRelease;
    var later := Step(p, s, e);
    forall o <- later.pubs | Active(later, o)
      ensures Holds(later, o)
    {
      assert Active(s, o);
      RowOfActive(p, s, o);
    }
  }

  /** Mutual exclusion among active publishes: in an undisturbed run at most one publish of a name is between acquire
      and release and in time, whatever the others do, late or crashed ones included. */
  lemma ActivePublishesExclude(p: Platform, run: seq<Event>, id: PubId, other: PubId)
    requires Play(p, run).Some? && Undisturbed(p, run)
    requires var s := Play(p, run).value;
             Active(s, id) && Active(s, other) && s.pubs[id].name == s.pubs[other].name
    ensures id == other
  {
    LockWorksExactly(p, run);
    var s := Play(p, run).value;
    assert ActiveHold(s);
    assert Holds(s, id) && Holds(s, other);
  }

  /** No two publishes of a name with the same bytes overlap while one of them is active. */
  ghost predicate DistinctBytes(p: Platform, s: State) {
    forall id <- s.pubs, o <- s.pubs ::
      id != o && Critical(s.pubs[id].pc) && Active(s, o) && s.pubs[id].name == s.pubs[o].name ==>
        p.digest(s.pubs[id].wasm) != p.digest(s.pubs[o].wasm)
  }

  ghost predicate AlwaysDistinct(p: Platform, run: seq<Event>)
    requires Play(p, run).Some?
  {
    DistinctBytes(p, Play(p, run).value) && (run != [] ==> AlwaysDistinct(p, run[..|run| - 1]))
  }

  /** Runs whose overlapping publishes of a name differ in their bytes are undisturbed: a late release never frees a
      newer holder's lock. */
  lemma {:induction false} DistinctRunsAreUndisturbed(p: Platform, run: seq<Event>)
    requires Play(p, run).Some? && AlwaysDistinct(p, run)
    ensures Undisturbed(p, run)
    decreases |run|
  {
    hide Step, DistinctBytes, NoForeignRelease;
    if run != [] {
      var before := run[..|run| - 1];
      DistinctRunsAreUndisturbed(p, before);
      DistinctStep(p, Play(p, before).value, run[|run| - 1]);
    }
  }

  lemma DistinctStep(p: Platform, s: State, e: Event)
    requires DistinctBytes(p, s) && Enabled(s, e)
    ensures NoForeignRelease(p, s, e)
  {
  }

  /** No publish outlives the lock row that it wrote. */
  ghost predicate InTime(s: State) { forall id <- s.pubs :: Critical(s.pubs[id].pc) ==> Active(s, id) }

  ghost predicate Timely(p: Platform, run: seq<Event>)
    requires Play(p, run).Some?
  {
    InTime(Play(p, run).value) && (run != [] ==> Timely(p, run[..|run| - 1]))
  }

  /** A run in which every publish finishes in time is undisturbed: its releases are those of the lock's holder. */
  lemma {:induction false} TimelyRunsAreUndisturbed(p: Platform, run: seq<Event>)
    requires Play(p, run).Some? && Timely(p, run)
    ensures Undisturbed(p, run)
    decreases |run|
  {
    hide Step, InTime, ActiveHold, NoForeignRelease, Inv;
    if run != [] {
      var before := run[..|run| - 1];
      TimelyRunsAreUndisturbed(p, before);
      LockWorksExactly(p, before);
      TimelyStep(p, Play(p, before).value, run[|run| - 1]);
    }
  }

  lemma TimelyStep(p: Platform, s: State, e: Event)
    requires InTime(s) && ActiveHold(s) && Enabled(s, e)
    ensures NoForeignRelease(p, s, e)
  {
    if e.Release? {
      assert Active(s, e.id) && Holds(s, e.id);
      forall o <- s.pubs ensures !FreesAnother(p, s, e, o) {
        if o != e.id && Active(s, o) { assert Holds(s, o); }
      }
    }
  }

  /** In a run in which every publish finishes in time, whoever is between acquire and release holds the lock. */
  lemma CriticalPublishesHoldTheLock(p: Platform, run: seq<Event>, id: PubId)
    requires Play(p, run).Some? && Timely(p, run)
    requires id in Play(p, run).value.pubs && Critical(Play(p, run).value.pubs[id].pc)
    ensures Holds(Play(p, run).value, id)
  {
    TimelyRunsAreUndisturbed(p, run);
    LockWorksExactly(p, run);
    assert InTime(Play(p, run).value) && ActiveHold(Play(p, run).value);
  }

  /** If every publish finishes before its lock expires, at most one publish of a name is between acquire and
      release. */
  lemma MutualExclusion(p: Platform, run: seq<Event>, id: PubId, other: PubId)
    requires Play(p, run).Some? && Timely(p, run)
    requires var s := Play(p, run).value;
             && id in s.pubs && other in s.pubs && s.pubs[id].name == s.pubs[other].name
             && Critical(s.pubs[id].pc) && Critical(s.pubs[other].pc)
    ensures id == other
  {
    TimelyRunsAreUndisturbed(p, run);
    assert InTime(Play(p, run).value);
    ActivePublishesExclude(p, run, id, other);
  }

  /** The clocks that find the lock taken after an acquire at `seen`: fifteen minutes, cut off at the end of `u64`. */
  predicate WithinTtl(seen: u64, clock: nat) { clock < seen + 900 && clock < U64_MAX }

  /** Fifteen minutes of a lock, exactly: while the row that an acquire at `seen` wrote is there, any other acquire of
      the name is a conflict at every clock before `seen` plus 900 seconds, and goes through at every clock from then
      on. The publish itself counts as in time by the same clock. */
  lemma LockLastsExactly(p: Platform, s: State, id: PubId, seen: u64, later: State, other: PubId, clock: u64)
    requires Enabled(s, Acquire(id, seen, Answered))
    requires Step(p, s, Acquire(id, seen, Answered)).pubs[id].pc.Holding?
    requires var n := s.pubs[id].name;
             && n in later.lock && n in Step(p, s, Acquire(id, seen, Answered)).lock
             && later.lock[n] == Step(p, s, Acquire(id, seen, Answered)).lock[n]
             && other in later.pubs && later.pubs[other].name == n
    requires Enabled(later, Acquire(other, clock, Answered))
    ensures Step(p, later, Acquire(other, clock, Answered)).pubs[other].pc
         == if WithinTtl(seen, clock) then Done(Failed(Conflict)) else Holding
    ensures clock < Step(p, s, Acquire(id, seen, Answered)).pubs[id].expiresAt <==> WithinTtl(seen, clock)
  {
  }

  /** How a publish begins: bytes that are missing, too large or invalid end it before the lock, each with its error,
      and so does a lost validation task; anything else goes on to the lock. */
  lemma FirstChecksExactly(p: Platform, wasm: Wasm, taskLost: bool)
    ensures var pc := FirstPc(p, wasm, taskLost);
            && (pc == Acquiring <==> Gate(p, wasm) && !taskLost)
            && (pc == Done(Failed(PayloadTooLarge)) <==> |wasm| > 2097152)
            && (pc == Done(Failed(Error.Invoke)) <==> 1 <= |wasm| <= 2097152 && taskLost)
            && (pc == Done(Failed(Compile)) <==> wasm == [] || (|wasm| <= 2097152 && !taskLost && !p.validates(wasm)))
  {
  }

  /** A call of `id` that ends in an error although it may have been carried out. */
  ghost predicate LosesLockCall(e: Event, id: PubId) {
    (e.Acquire? || e.Release?) && e.id == id && e.fate.Lost?
  }

  /** A lock row is either held by a publish that is still on its way to its release, or left behind by one whose
      acquire or release lost its answer: no other exit leaves the lock held. */
  lemma {:induction false} LockIsLeftOnlyByLostCalls(p: Platform, run: seq<Event>, n: Name)
    requires Play(p, run).Some? && n in Play(p, run).value.lock
    ensures var s := Play(p, run).value;
            n in s.holder && s.holder[n] in s.pubs &&
            (Critical(s.pubs[s.holder[n]].pc) || exists k :: 0 <= k < |run| && LosesLockCall(run[k], s.holder[n]))
    decreases |run|
  {
    hide Step, Enabled;
    Reachable(p, run);
    if run != [] {
      var before, e := run[..|run| - 1], run[|run| - 1];
      var s, later := Play(p, before).value, Play(p, run).value;
      Reachable(p, before);
      HolderStep(p, s, e, n);
      if LosesLockCall(e, later.holder[n]) {
        assert LosesLockCall(run[|run| - 1], later.holder[n]);
      } else if !Critical(later.pubs[later.holder[n]].pc) {
        LockIsLeftOnlyByLostCalls(p, before, n);
        var k :| 0 <= k < |before| && LosesLockCall(before[k], s.holder[n]);
        assert LosesLockCall(run[k], later.holder[n]);
      }
    }
  }

  /** How the holder of `n` after a step came to hold it. */
  ghost predicate HolderAfter(s: State, e: Event, later: State, n: Name) {
    && n in later.holder && later.holder[n] in later.pubs
    && (LosesLockCall(e, later.holder[n]) || Critical(later.pubs[later.holder[n]].pc) ||
        (n in s.lock && n in s.holder && s.holder[n] == later.holder[n] && s.holder[n] in s.pubs
         && !Critical(s.pubs[s.holder[n]].pc)))
  }

  lemma HolderStep(p: Platform, s: State, e: Event, n: Name)
    requires Inv(p, s) && Enabled(s, e) && n in Step(p, s, e).lock
    ensures HolderAfter(s, e, Step(p, s, e), n)
  {
    hide CatalogOk, BucketOk, Backed, PubsOk, HolderAfter;
    match e
    case Acquire(id, seen, fate) => HolderAcquire(p, s, e, n);
    case Release(id, fate) => HolderRelease(p, s, e, n);
    case _ => HolderOther(p, s, e, n);
  }

  lemma HolderAcquire(p: Platform, s: State, e: Event, n: Name)
    requires LockOk(p, s) && e.Acquire? && Enabled(s, e) && n in StepAcquire(p, s, e.id, e.seen, e.fate).lock
    ensures HolderAfter(s, e, StepAcquire(p, s, e.id, e.seen, e.fate), n)
  {
    if n in s.lock { assert Wrote(p, n, s.lock[n], s.pubs[s.holder[n]]); }
  }

  lemma HolderRelease(p: Platform, s: State, e: Event, n: Name)
    requires LockOk(p, s) && e.Release? && Enabled(s, e) && n in StepRelease(p, s, e.id, e.fate).lock
    ensures HolderAfter(s, e, StepRelease(p, s, e.id, e.fate), n)
  {
    assert Wrote(p, n, s.lock[n], s.pubs[s.holder[n]]);
  }

  lemma HolderOther(p: Platform, s: State, e: Event, n: Name)
    requires LockOk(p, s) && Enabled(s, e) && !e.Acquire? && !e.Release? && n in Step(p, s, e).lock
    ensures HolderAfter(s, e, Step(p, s, e), n)
  {
    hide IsNewest, Arrive, StepAcquire, StepRelease;
    assert Wrote(p, n, s.lock[n], s.pubs[s.holder[n]]);
  }

  /** Whatever happens, a publish loses a lock row that has not expired only to its own release or to a release of a
      publish of the same name with the same hash. */
  lemma LockIsLostOnlyTo(p: Platform, run: seq<Event>, e: Event, id: PubId)
    requires Play(p, run).Some? && Enabled(Play(p, run).value, e)
    requires var s := Play(p, run).value; id in s.pubs && Holds(s, id) && s.now < s.lock[s.pubs[id].name].expiresAt
    ensures var s := Play(p, run).value; var later := Step(p, s, e); var n := s.pubs[id].name;
            (Holds(later, id) && later.lock[n] == s.lock[n]) <==>
            !(e.Release? && Reached(e.fate) && s.pubs[e.id].name == n
              && p.digest(s.pubs[e.id].wasm) == p.digest(s.pubs[id].wasm))
  {
    hide CatalogOk, BucketOk, Backed, PubsOk, IsNewest, Arrive, Play;
    Reachable(p, run);
    var s := Play(p, run).value;
    assert Wrote(p, s.pubs[id].name, s.lock[s.pubs[id].name], s.pubs[id]);
  }

  lemma PlaySnoc(p: Platform, run: seq<Event>, e: Event)
    requires Play(p, run).Some? && Enabled(Play(p, run).value, e)
    ensures Play(p, run + [e]) == Some(Step(p, Play(p, run).value, e))
  {
    assert (run + [e])[..|run|] == run;
  }

  /** Two overlapping publishes of the same bytes break the exclusion: the late release of the first frees the lock
      of the second, and a third gets in beside the second, both of them in time. */
  lemma SameHashBreaksExclusion(p: Platform, n: Name, wasm: Wasm, third: Wasm) returns (run: seq<Event>)
    requires Gate(p, wasm) && Gate(p, third)
    ensures Play(p, run).Some?
    ensures var s := Play(p, run).value;
            && 1 in s.pubs && 2 in s.pubs && s.pubs[1].name == s.pubs[2].name == n
            && Active(s, 1) && Active(s, 2)
  {
    hide Play;
    run := [];
    assert Play(p, run) == Some(INITIAL) by { PlayNothing(p); }
    run := Extend(p, run, Begin(0, n, wasm, [], 0, false));
    run := Extend(p, run, Acquire(0, 0, Answered));
    run := Extend(p, run, Put(0, Lost(false)));
    run := Extend(p, run, Tick(TTL_SECS));
    run := Extend(p, run, Begin(1, n, wasm, [], 0, false));
    run := Extend(p, run, Acquire(1, TTL_SECS, Answered));
    run := Extend(p, run, Release(0, Answered));
    run := Extend(p, run, Begin(2, n, third, [], 0, false));
    run := Extend(p, run, Acquire(2, TTL_SECS, Answered));
  }

  lemma PlayNothing(p: Platform)
    ensures Play(p, []) == Some(INITIAL)
  {
  }

  lemma Extend(p: Platform, run: seq<Event>, e: Event) returns (longer: seq<Event>)
    requires Play(p, run).Some? && Enabled(Play(p, run).value, e)
    ensures longer == run + [e] && Play(p, longer) == Some(Step(p, Play(p, run).value, e))
  {
    PlaySnoc(p, run, e);
    longer := run + [e];
  }
}

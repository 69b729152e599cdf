/** From the bytes of a catalog row to the module that runs: the artifact store re-hashes what it reads, and the
    runner keeps compiled modules by content hash. */
module ModuleCache {
  import opened Wrappers
  import opened Results
  import opened PublishProtocol
  import opened PublishTheorems
  import opened WasmAbi
  import Pipeline = InvokePipeline

  type AppError = Pipeline.AppError

  /** What stays opaque: the content hash, the section parser, and whether the code generator accepts a module. */
  datatype Tools = Tools(digest: Wasm -> Hash, decode: Wasm -> Option<Binary>, builds: Wasm -> bool)

  ghost predicate Injective(digest: Wasm -> Hash) { forall a, b :: digest(a) == digest(b) ==> a == b }

  predicate IsModule(t: Tools, wasm: Wasm) { t.decode(wasm).Some? && Valid(t.decode(wasm).value) }

  function ModuleOf(t: Tools, wasm: Wasm): Module
    requires IsModule(t, wasm)
  {
    CompiledModule(t.decode(wasm).value)
  }

  /** The bytes can become a module that runs: valid, accepted by the code generator, and of the right ABI. */
  predicate Loads(t: Tools, wasm: Wasm) { IsModule(t, wasm) && t.builds(wasm) && MeetsAbi(ModuleOf(t, wasm)) }

  predicate PassesPublish(t: Tools, wasm: Wasm) { IsModule(t, wasm) && WalkPasses(Walk(t.decode(wasm).value)) }

  /** Bytes that passed publish never fail the ABI check at invoke: they load if the code generator takes them. */
  lemma PublishedBytesLoad(t: Tools, wasm: Wasm)
    requires IsModule(t, wasm)
    ensures PassesPublish(t, wasm) && t.builds(wasm) <==> Loads(t, wasm)
  {
    hide Valid, CompiledModule, WalkPasses, MeetsAbi, Walk;
    WalkAgreesWithModule(t.decode(wasm).value);
  }

  class S3ArtifactStore {
    const tools: Tools
    /** One bucket and prefix; an object's key is its hash. */
    var bucket: map<Hash, Wasm>

    constructor (tools: Tools)
      ensures this.tools == tools && bucket == map[]
    {
      this.tools, bucket := tools, map[];
    }

    method Put(wasm: Wasm, fate: Fate) returns (r: Result<Hash, AppError>)
      modifies this`bucket
      ensures r == if fate.Answered? then Ok(tools.digest(wasm)) else Err(Pipeline.Storage)
      ensures bucket == if Reached(fate) then old(bucket)[tools.digest(wasm) := wasm] else old(bucket)
    {
      var hash := tools.digest(wasm);
      if Reached(fate) { bucket := bucket[hash := wasm]; }
      return if fate.Answered? then Ok(hash) else Err(Pipeline.Storage);
    }

    /** The bytes come back only if they hash to what was asked for; whoever wrote the bucket. */
    method Get(hash: Hash, fails: bool) returns (r: Result<Wasm, AppError>)
      ensures r.Ok? <==>
        !fails && hash in bucket && |bucket[hash]| <= MAX_WASM_BYTES && tools.digest(bucket[hash]) == hash
      ensures r.Ok? ==> r.value == bucket[hash]
      ensures r == Err(Pipeline.Storage) <==> fails
      ensures r == Err(Pipeline.PayloadTooLarge) <==> !fails && hash in bucket && |bucket[hash]| > MAX_WASM_BYTES
      ensures r == Err(Pipeline.ArtifactMissing) <==> !fails && hash !in bucket
      ensures r == Err(Pipeline.HashMismatch) <==>
        !fails && hash in bucket && |bucket[hash]| <= MAX_WASM_BYTES && tools.digest(bucket[hash]) != hash
    {
      if fails { return Err(Pipeline.Storage); }
      if hash !in bucket { return Err(Pipeline.ArtifactMissing); }
      var bytes := bucket[hash];
      if |bytes| > MAX_WASM_BYTES { return Err(Pipeline.PayloadTooLarge); }
      return if tools.digest(bytes) == hash then Ok(bytes) else Err(Pipeline.HashMismatch);
    }
  }

  /** `m` is what some bytes with this hash compile to. */
  ghost predicate Compiled(t: Tools, hash: Hash, m: Module) {
    exists wasm :: t.digest(wasm) == hash && Loads(t, wasm) && m == ModuleOf(t, wasm)
  }

  ghost predicate AllCompiled(t: Tools, modules: map<Hash, Module>) {
    forall h <- modules :: Compiled(t, h, modules[h])
  }

  /** When another task panics while it holds the cache's lock. */
  datatype Poisoned = Never | BeforeLookup | BeforeInsert

  class WasmtimeRunner {
    const tools: Tools
    var modules: map<Hash, Module>

    constructor (tools: Tools)
      ensures this.tools == tools && AllCompiled(tools, modules)
    {
      this.tools, modules := tools, map[];
    }

    /** The publish check compiles nothing and leaves the cache alone. It runs in a task, which may be lost. */
    method Validate(wasm: Wasm, taskLost: bool) returns (r: Result<(), AppError>)
      ensures r.Ok? <==> !taskLost && PassesPublish(tools, wasm)
      ensures r.Err? ==> r.error == if taskLost then Pipeline.Invoke else Pipeline.Compile
    {
      if taskLost { return Err(Pipeline.Invoke); }
      if !IsModule(tools, wasm) { return Err(Pipeline.Compile); }
      var abi := AssertAbiBytes(tools.decode(wasm).value);
      return if abi.Ok? then Ok(()) else Err(Pipeline.Compile);
    }

    /** The cache is locked to look the module up and locked again to insert it; `meanwhile` is what other runs insert
        in between, and the lock may be poisoned either time. Hit or miss, the module is the compilation of the
        given bytes. */
    method CachedModule(hash: Hash, wasm: Wasm, meanwhile: map<Hash, Module>, poisoned: Poisoned)
      returns (r: Result<Module, AppError>)
      requires AllCompiled(tools, modules) && AllCompiled(tools, meanwhile)
      requires tools.digest(wasm) == hash
      modifies this`modules
      ensures AllCompiled(tools, modules)
      ensures r.Ok? ==> hash in modules && Compiled(tools, hash, r.value)
      ensures r.Ok? && Injective(tools.digest) ==> Loads(tools, wasm) && r.value == ModuleOf(tools, wasm)
      ensures poisoned.Never? && Loads(tools, wasm) ==> r.Ok?
      ensures hash in old(modules) && !poisoned.BeforeLookup? ==> r == Ok(old(modules)[hash])
      ensures r.Err? ==> r.error == if poisoned.BeforeLookup? || (poisoned.BeforeInsert? && Loads(tools, wasm))
                                    then Pipeline.Invoke else Pipeline.Compile
    {
      hide Valid, CompiledModule, MeetsAbi;
      if poisoned.BeforeLookup? { return Err(Pipeline.Invoke); }
      if hash in modules { return Ok(modules[hash]); }
      modules := modules + meanwhile;
      if !(IsModule(tools, wasm) && tools.builds(wasm)) { return Err(Pipeline.Compile); }
      var module_ := ModuleOf(tools, wasm);
      var abi := AssertAbi(module_);
      if abi.Err? { return Err(Pipeline.Compile); }
      if poisoned.BeforeInsert? { return Err(Pipeline.Invoke); }
      assert Compiled(tools, hash, module_);
      modules := modules[hash := module_];
      return Ok(module_);
    }
  }

  /** What an invoke answers, and the module it entered. */
  datatype Response = Response(contentHash: Hash, entered: Module)

  /** From a resolved row to the module that is entered: with an injective hash it is the compilation of the only
      bytes whose hash the response reports, and those are the bytes in the store. */
  method Invoke(row: Result<Row, AppError>, store: S3ArtifactStore, runner: WasmtimeRunner, storeFails: bool,
                meanwhile: map<Hash, Module>, poisoned: Poisoned) returns (r: Result<Response, AppError>)
    requires store.tools == runner.tools
    requires AllCompiled(runner.tools, runner.modules) && AllCompiled(runner.tools, meanwhile)
    modifies runner`modules
    ensures AllCompiled(runner.tools, runner.modules)
    ensures r.Ok? ==> row.Ok? && r.value.contentHash == row.value.hash && row.value.hash in store.bucket
    ensures r.Ok? && Injective(runner.tools.digest) ==>
      forall wasm :: runner.tools.digest(wasm) == r.value.contentHash ==>
        wasm == store.bucket[row.value.hash] && Loads(runner.tools, wasm)
        && r.value.entered == ModuleOf(runner.tools, wasm)
    ensures row.Err? ==> r == Err(row.error)
  {
    if row.Err? { return Err(row.error); }
    var hash := row.value.hash;
    var wasm := store.Get(hash, storeFails);
    if wasm.Err? { return Err(wasm.error); }
    var module_ := runner.CachedModule(hash, wasm.value, meanwhile, poisoned);
    if module_.Err? { return Err(module_.error); }
    return Ok(Response(hash, module_.value));
  }

  /** In every run of publishes, each row that the catalog holds or ever held leads to bytes that load, unless the code
      generator rejects them: a row never fails the hash check, the size check or the ABI check. */
  lemma PublishedRowsLoad(t: Tools, p: Platform, run: seq<Event>, k: nat)
    requires p.digest == t.digest && forall wasm :: p.validates(wasm) ==> PassesPublish(t, wasm)
    requires Play(p, run).Some? && k < |Play(p, run).value.arrivals|
    ensures var s := Play(p, run).value; var h := s.arrivals[k].row.hash;
            && h in s.bucket && t.digest(s.bucket[h]) == h && |s.bucket[h]| <= MAX_WASM_BYTES
            && (t.builds(s.bucket[h]) ==> Loads(t, s.bucket[h]))
  {
    hide PassesPublish, Loads, Play, IsModule;
    RowsAreBacked(p, run, k);
    var s := Play(p, run).value;
    var wasm := s.bucket[s.arrivals[k].row.hash];
    assert PassesPublish(t, wasm);
    assert IsModule(t, wasm) by { PassingIsModule(t, wasm); }
    PublishedBytesLoad(t, wasm);
  }

  lemma PassingIsModule(t: Tools, wasm: Wasm)
    requires PassesPublish(t, wasm)
    ensures IsModule(t, wasm)
  {
  }
}

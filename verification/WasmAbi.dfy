/** The two checkers of the guest ABI. Publish walks the raw sections of a binary; invoke asks the compiled module.
    On every valid binary they give the same verdict. A binary is the sequence of payloads that the section parser
    yields, laid out as in section 5.5 of the WebAssembly Core Specification. */
module WasmAbi {
  import opened Wrappers
  import opened Results

  datatype ValType = I32 | I64 | F32 | F64 | V128 | Ref

  datatype FuncType = FuncType(params: seq<ValType>, results: seq<ValType>)

  /** `NotFunc` stands for the composite types that are not function types. */
  datatype CompositeType = Func(ty: FuncType) | NotFunc

  datatype TypeRef = FuncRef(index: nat) | FuncExactRef(index: nat) | TableRef | MemoryRef | GlobalRef | TagRef

  datatype ExternalKind = FuncKind | FuncExactKind | TableKind | MemoryKind | GlobalKind | TagKind

  datatype Import = Import(space: string, name: string, ty: TypeRef)

  datatype Export = Export(name: string, kind: ExternalKind, index: nat)

  /** `Skipped` is any payload that neither checker looks at. */
  datatype Payload =
    | TypeSection(groups: seq<seq<CompositeType>>)
    | ImportSection(imports: seq<Import>)
    | FunctionSection(indices: seq<nat>)
    | ExportSection(exports: seq<Export>)
    | Skipped

  type Binary = seq<Payload>

  datatype AbiError = MissingMemory | MissingInvoke | WrongKind | WrongType | Dangling | Unsupported

  const INVOKE := FuncType([I32, I32], [I32])
  const HTTP_GET := FuncType([I32, I32, I32, I32], [I32])

  predicate IsInvokeType(ty: FuncType): (ok: bool)
    ensures ok <==> ty == INVOKE
  {
    |ty.params| == 2 && ty.params[0].I32? && ty.params[1].I32? && |ty.results| == 1 && ty.results[0].I32?
  }

  predicate IsHttpGetType(ty: FuncType): (ok: bool)
    ensures ok <==> ty == HTTP_GET
  {
    assert forall i :: 0 <= i < |ty.params| ==> ty.params[i] in ty.params;
    |ty.params| == 4 && (forall p <- ty.params :: p.I32?) && |ty.results| == 1 && ty.results[0].I32?
  }

  predicate IsFunc(ty: TypeRef) { ty.FuncRef? || ty.FuncExactRef? }

  predicate IsFuncKind(kind: ExternalKind) { kind.FuncKind? || kind.FuncExactKind? }

  // ----- The compiled module -----------------------------------------------------------------

  datatype Extern = FuncExtern(ty: FuncType) | TableExtern | MemoryExtern | GlobalExtern | TagExtern

  datatype Module = Module(exports: seq<(string, Extern)>, imports: seq<(string, string, Extern)>)

  function Flatten<T>(groups: seq<seq<T>>): seq<T> {
    if groups == [] then [] else groups[0] + Flatten(groups[1..])
  }

  /** The entries of all the sections that `section` picks. */
  function Entries<T>(b: Binary, section: Payload -> seq<T>): seq<T> {
    if b == [] then [] else section(b[0]) + Entries(b[1..], section)
  }

  function TypesIn(p: Payload): seq<CompositeType> { if p.TypeSection? then Flatten(p.groups) else [] }

  function ImportsIn(p: Payload): seq<Import> { if p.ImportSection? then p.imports else [] }

  function FunctionsIn(p: Payload): seq<nat> { if p.FunctionSection? then p.indices else [] }

  function ExportsIn(p: Payload): seq<Export> { if p.ExportSection? then p.exports else [] }

  function TypesOf(b: Binary): seq<CompositeType> { Entries(b, TypesIn) }

  function ImportsOf(b: Binary): seq<Import> { Entries(b, ImportsIn) }

  function FunctionsOf(b: Binary): seq<nat> { Entries(b, FunctionsIn) }

  function ExportsOf(b: Binary): seq<Export> { Entries(b, ExportsIn) }

  function FunctionIn(i: Import): seq<nat> { if IsFunc(i.ty) then [i.ty.index] else [] }

  function ImportedFunctions(imports: seq<Import>): seq<nat> {
    if imports == [] then [] else FunctionIn(imports[0]) + ImportedFunctions(imports[1..])
  }

  /** The function index space (section 2.5.1): the imported functions come first, wherever they stand. */
  function FunctionSpace(b: Binary): seq<nat> { ImportedFunctions(ImportsOf(b)) + FunctionsOf(b) }

  predicate IsFuncType(types: seq<CompositeType>, index: nat) { index < |types| && types[index].Func? }

  function Rank(p: Payload): nat {
    match p
    case TypeSection(_) => 1
    case ImportSection(_) => 2
    case FunctionSection(_) => 3
    case ExportSection(_) => 4
    case Skipped => 0
  }

  /** Sections come in order and at most once; skipped payloads may stand anywhere. */
  predicate InOrder(b: Binary) {
    forall i, j :: 0 <= i < j < |b| && !b[i].Skipped? && !b[j].Skipped? ==> Rank(b[i]) < Rank(b[j])
  }

  /** What validation guarantees about the payloads: order, indices in range and of function type, and export names
      that are unique. */
  predicate Valid(b: Binary) {
    && InOrder(b)
    && (forall i :: 0 <= i < |FunctionSpace(b)| ==> IsFuncType(TypesOf(b), FunctionSpace(b)[i]))
    && (forall e <- ExportsOf(b) :: IsFuncKind(e.kind) ==> e.index < |FunctionSpace(b)|)
    && forall i, j :: 0 <= i < j < |ExportsOf(b)| ==> ExportsOf(b)[i].name != ExportsOf(b)[j].name
  }

  function ImportExtern(types: seq<CompositeType>, ty: TypeRef): Extern
    requires IsFunc(ty) ==> IsFuncType(types, ty.index)
  {
    match ty
    case FuncRef(i) => FuncExtern(types[i].ty)
    case FuncExactRef(i) => FuncExtern(types[i].ty)
    case TableRef => TableExtern
    case MemoryRef => MemoryExtern
    case GlobalRef => GlobalExtern
    case TagRef => TagExtern
  }

  function ExportExtern(types: seq<CompositeType>, space: seq<nat>, e: Export): Extern
    requires IsFuncKind(e.kind) ==> e.index < |space| && IsFuncType(types, space[e.index])
  {
    match e.kind
    case FuncKind => FuncExtern(types[space[e.index]].ty)
    case FuncExactKind => FuncExtern(types[space[e.index]].ty)
    case TableKind => TableExtern
    case MemoryKind => MemoryExtern
    case GlobalKind => GlobalExtern
    case TagKind => TagExtern
  }

  lemma ImportsAreTyped(b: Binary)
    requires Valid(b)
    ensures forall i <- ImportsOf(b) :: IsFunc(i.ty) ==> IsFuncType(TypesOf(b), i.ty.index)
  {
    ImportedFunctionsAreInSpace(ImportsOf(b));
    forall i <- ImportsOf(b) | IsFunc(i.ty)
      ensures IsFuncType(TypesOf(b), i.ty.index)
    {
      var k :| 0 <= k < |ImportedFunctions(ImportsOf(b))| && ImportedFunctions(ImportsOf(b))[k] == i.ty.index;
      assert FunctionSpace(b)[k] == i.ty.index;
    }
  }

  /** The typed module that compiling a valid binary gives. */
  function CompiledModule(b: Binary): Module
    requires Valid(b)
  {
    var types, space, exports, imports := TypesOf(b), FunctionSpace(b), ExportsOf(b), ImportsOf(b);
    ImportsAreTyped(b);
    Module(seq(|exports|, i requires 0 <= i < |exports| => (exports[i].name, ExportExtern(types, space, exports[i]))),
           seq(|imports|, i requires 0 <= i < |imports| =>
             (imports[i].space, imports[i].name, ImportExtern(types, imports[i].ty))))
  }

  lemma {:induction false} ImportedFunctionsAreInSpace(imports: seq<Import>)
    ensures forall i <- imports :: IsFunc(i.ty) ==> i.ty.index in ImportedFunctions(imports)
  {
    if imports != [] { ImportedFunctionsAreInSpace(imports[1..]); }
  }

  // ----- The check of the compiled module ------------------------------------------------------

  function GetExport(exports: seq<(string, Extern)>, name: string): Option<Extern> {
    if exports == [] then None else if exports[0].0 == name then Some(exports[0].1) else GetExport(exports[1..], name)
  }

  /** The ABI: `memory` is a memory, `invoke` is a function `(i32, i32) -> i32`, and nothing is imported but
      `nitrum.http_get` as a function `(i32, i32, i32, i32) -> i32`. */
  predicate MeetsAbi(m: Module) {
    && GetExport(m.exports, "memory") == Some(MemoryExtern)
    && GetExport(m.exports, "invoke") == Some(FuncExtern(INVOKE))
    && forall i :: 0 <= i < |m.imports| ==> IsHttpGet(m.imports[i])
  }

  predicate IsHttpGet(i: (string, string, Extern)) {
    i.0 == "nitrum" && i.1 == "http_get" && i.2 == FuncExtern(HTTP_GET)
  }

  method AssertAbi(m: Module) returns (r: Result<(), AbiError>)
    ensures r.Ok? <==> MeetsAbi(m)
  {
    var memory := GetExport(m.exports, "memory");
    if memory.None? { return Err(MissingMemory); }
    if !memory.value.MemoryExtern? { return Err(WrongKind); }
    var invoke := GetExport(m.exports, "invoke");
    if invoke.None? { return Err(MissingInvoke); }
    if !invoke.value.FuncExtern? { return Err(WrongKind); }
    if !IsInvokeType(invoke.value.ty) { return Err(WrongType); }
    for i := 0 to |m.imports|
      invariant forall j :: 0 <= j < i ==> IsHttpGet(m.imports[j])
    {
      var (space, name, ty) := m.imports[i];
      if space == "nitrum" && name == "http_get" {
        if !ty.FuncExtern? { return Err(WrongKind); }
        if !IsHttpGetType(ty.ty) { return Err(WrongType); }
      } else {
        return Err(Unsupported);
      }
    }
    return Ok(());
  }

  // ----- The walk over the sections --------------------------------------------------------------

  /** What the walk has collected. */
  datatype Found = Found(types: seq<Option<FuncType>>, functions: seq<nat>, exports: seq<Export>, imports: seq<Import>)

  function AsFunc(ty: CompositeType): Option<FuncType> { if ty.Func? then Some(ty.ty) else None }

  function FuncsOf(types: seq<CompositeType>): (found: seq<Option<FuncType>>)
    ensures |found| == |types| && forall i :: 0 <= i < |types| ==> found[i] == AsFunc(types[i])
  {
    seq(|types|, i requires 0 <= i < |types| => AsFunc(types[i]))
  }

  function Add(f: Found, p: Payload): Found {
    match p
    case TypeSection(groups) => f.(types := f.types + FuncsOf(Flatten(groups)))
    case ImportSection(imports) =>
      f.(functions := f.functions + ImportedFunctions(imports), imports := f.imports + imports)
    case FunctionSection(indices) => f.(functions := f.functions + indices)
    case ExportSection(exports) => f.(exports := f.exports + exports)
    case Skipped => f
  }

  function Walk(b: Binary): Found {
    if b == [] then Found([], [], [], []) else Add(Walk(b[..|b| - 1]), b[|b| - 1])
  }

  predicate TypeIs(types: seq<Option<FuncType>>, index: nat, ty: FuncType) {
    index < |types| && types[index] == Some(ty)
  }

  predicate ExportPasses(f: Found, e: Export) {
    && (e.name == "memory" ==> e.kind.MemoryKind?)
    && (e.name == "invoke" ==>
          IsFuncKind(e.kind) && e.index < |f.functions| && TypeIs(f.types, f.functions[e.index], INVOKE))
  }

  predicate ImportPasses(f: Found, i: Import) {
    i.space == "nitrum" && i.name == "http_get" && IsFunc(i.ty) && TypeIs(f.types, i.ty.index, HTTP_GET)
  }

  predicate WalkPasses(f: Found) {
    ExportsPass(f) && forall i :: 0 <= i < |f.imports| ==> ImportPasses(f, f.imports[i])
  }

  predicate Exported(exports: seq<Export>, name: string) { exists i :: 0 <= i < |exports| && exports[i].name == name }

  predicate ExportsPass(f: Found) {
    && (forall i :: 0 <= i < |f.exports| ==> ExportPasses(f, f.exports[i]))
    && Exported(f.exports, "memory") && Exported(f.exports, "invoke")
  }

  lemma FlattenSnoc<T>(groups: seq<seq<T>>, i: nat)
    requires i < |groups|
    ensures Flatten(groups[..i + 1]) == Flatten(groups[..i]) + groups[i]
  {
    if i == 0 {
      assert groups[..1][1..] == [];
    } else {
      FlattenSnoc(groups[1..], i - 1);
      assert groups[1..][..i] == groups[..i + 1][1..] && groups[1..][..i - 1] == groups[..i][1..];
    }
  }

  lemma ImportedFunctionsSnoc(imports: seq<Import>, i: nat)
    requires i < |imports|
    ensures ImportedFunctions(imports[..i + 1])
         == ImportedFunctions(imports[..i]) + FunctionIn(imports[i])
  {
    if i == 0 {
      assert imports[..1][1..] == [];
    } else {
      ImportedFunctionsSnoc(imports[1..], i - 1);
      assert imports[1..][..i] == imports[..i + 1][1..] && imports[1..][..i - 1] == imports[..i][1..];
    }
  }

  method CollectTypes(groups: seq<seq<CompositeType>>, before: seq<Option<FuncType>>)
    returns (types: seq<Option<FuncType>>)
    ensures types == before + FuncsOf(Flatten(groups))
  {
    types := before;
    for i := 0 to |groups|
      invariant types == before + FuncsOf(Flatten(groups[..i]))
    {
      FlattenSnoc(groups, i);
      var group := groups[i];
      for j := 0 to |group|
        invariant types == before + FuncsOf(Flatten(groups[..i]) + group[..j])
      {
        types := types + [AsFunc(group[j])];
      }
      assert group[..|group|] == group;
    }
    assert groups[..|groups|] == groups;
  }

  method CollectImports(imports: seq<Import>, functionsBefore: seq<nat>, importsBefore: seq<Import>)
    returns (functions: seq<nat>, found: seq<Import>)
    ensures functions == functionsBefore + ImportedFunctions(imports)
    ensures found == importsBefore + imports
  {
    functions, found := functionsBefore, importsBefore;
    for i := 0 to |imports|
      invariant functions == functionsBefore + ImportedFunctions(imports[..i])
      invariant found == importsBefore + imports[..i]
    {
      ImportedFunctionsSnoc(imports, i);
      if IsFunc(imports[i].ty) { functions := functions + [imports[i].ty.index]; }
      found := found + [imports[i]];
    }
    assert imports[..|imports|] == imports;
  }

  method Append<T>(before: seq<T>, items: seq<T>) returns (all: seq<T>)
    ensures all == before + items
  {
    all := before;
    for i := 0 to |items|
      invariant all == before + items[..i]
    {
      all := all + [items[i]];
    }
    assert items[..|items|] == items;
  }

  method Collect(b: Binary) returns (f: Found)
    ensures f == Walk(b)
  {
    var types: seq<Option<FuncType>>, functions: seq<nat>, exports: seq<Export>, imports: seq<Import> := [], [], [], [];
    for i := 0 to |b|
      invariant Found(types, functions, exports, imports) == Walk(b[..i])
    {
      assert b[..i + 1][..i] == b[..i];
      match b[i]
      case TypeSection(groups) => types := CollectTypes(groups, types);
      case ImportSection(section) => functions, imports := CollectImports(section, functions, imports);
      case FunctionSection(indices) => functions := Append(functions, indices);
      case ExportSection(section) => exports := Append(exports, section);
      case Skipped => {}
    }
    assert b[..|b|] == b;
    f := Found(types, functions, exports, imports);
  }

  method CheckExports(f: Found) returns (r: Result<(), AbiError>)
    ensures r.Ok? <==> ExportsPass(f)
  {
    var sawMemory, sawInvoke := false, false;
    for i := 0 to |f.exports|
      invariant forall j :: 0 <= j < i ==> ExportPasses(f, f.exports[j])
      invariant sawMemory <==> Exported(f.exports[..i], "memory")
      invariant sawInvoke <==> Exported(f.exports[..i], "invoke")
    {
      var e := f.exports[i];
      assert f.exports[..i + 1][i] == e && f.exports[..i] == f.exports[..i + 1][..i];
      if e.name == "memory" {
        if !e.kind.MemoryKind? { return Err(WrongKind); }
        sawMemory := true;
      } else if e.name == "invoke" {
        if !IsFuncKind(e.kind) { return Err(WrongKind); }
        if !(e.index < |f.functions|) { return Err(Dangling); }
        var typeIndex := f.functions[e.index];
        if !(typeIndex < |f.types|) || f.types[typeIndex].None? { return Err(Dangling); }
        if !IsInvokeType(f.types[typeIndex].value) { return Err(WrongType); }
        sawInvoke := true;
      }
    }
    assert f.exports[..|f.exports|] == f.exports;
    if !sawMemory { return Err(MissingMemory); }
    if !sawInvoke { return Err(MissingInvoke); }
    return Ok(());
  }

  method CheckImports(f: Found) returns (r: Result<(), AbiError>)
    ensures r.Ok? <==> forall i :: 0 <= i < |f.imports| ==> ImportPasses(f, f.imports[i])
  {
    for i := 0 to |f.imports|
      invariant forall j :: 0 <= j < i ==> ImportPasses(f, f.imports[j])
    {
      var import_ := f.imports[i];
      if import_.space == "nitrum" && import_.name == "http_get" {
        if !IsFunc(import_.ty) { return Err(WrongKind); }
        var typeIndex := import_.ty.index;
        if !(typeIndex < |f.types|) || f.types[typeIndex].None? { return Err(Dangling); }
        if !IsHttpGetType(f.types[typeIndex].value) { return Err(WrongType); }
      } else {
        return Err(Unsupported);
      }
    }
    return Ok(());
  }

  /** The ABI, spelled out. */
  lemma AbiExactly(m: Module)
    ensures MeetsAbi(m) <==>
      && GetExport(m.exports, "memory") == Some(MemoryExtern)
      && GetExport(m.exports, "invoke") == Some(FuncExtern(FuncType([I32, I32], [I32])))
      && forall i <- m.imports :: i == ("nitrum", "http_get", FuncExtern(FuncType([I32, I32, I32, I32], [I32])))
  {
    forall k | 0 <= k < |m.imports| ensures m.imports[k] in m.imports {}
  }

  // ----- The two verdicts agree --------------------------------------------------------------------

  lemma {:induction false} EntriesSnoc<T>(b: Binary, p: Payload, section: Payload -> seq<T>)
    ensures Entries(b + [p], section) == Entries(b, section) + section(p)
  {
    if b == [] {
      assert b + [p] == [p];
    } else {
      EntriesSnoc(b[1..], p, section);
      assert (b + [p])[1..] == b[1..] + [p];
    }
  }

  lemma SectionsSnoc(b: Binary, p: Payload)
    ensures TypesOf(b + [p]) == TypesOf(b) + TypesIn(p) && ImportsOf(b + [p]) == ImportsOf(b) + ImportsIn(p)
    ensures FunctionsOf(b + [p]) == FunctionsOf(b) + FunctionsIn(p) && ExportsOf(b + [p]) == ExportsOf(b) + ExportsIn(p)
  {
    hide Entries;
    EntriesSnoc(b, p, TypesIn);
    EntriesSnoc(b, p, ImportsIn);
    EntriesSnoc(b, p, FunctionsIn);
    EntriesSnoc(b, p, ExportsIn);
  }

  lemma {:induction false} ImportedFunctionsAppend(a: seq<Import>, b: seq<Import>)
    ensures ImportedFunctions(a + b) == ImportedFunctions(a) + ImportedFunctions(b)
  {
    hide FunctionIn;
    if a == [] {
      assert a + b == b;
    } else {
      ImportedFunctionsAppend(a[1..], b);
      assert (a + b)[1..] == a[1..] + b && (a + b)[0] == a[0];
    }
  }

  lemma {:induction false} NoFunctionsYet(b: Binary)
    requires forall i :: 0 <= i < |b| ==> !b[i].FunctionSection?
    ensures FunctionsOf(b) == []
  {
    if b != [] { NoFunctionsYet(b[1..]); }
  }

  /** The walk collects the sections, whatever their order. */
  lemma {:induction false} WalkCollects(b: Binary)
    ensures Walk(b).types == FuncsOf(TypesOf(b))
    ensures Walk(b).imports == ImportsOf(b) && Walk(b).exports == ExportsOf(b)
    decreases |b|
  {
    if b != [] {
      var before, p := b[..|b| - 1], b[|b| - 1];
      WalkCollects(before);
      SectionsSnoc(before, p);
      assert b == before + [p];
    }
  }

  lemma PrefixInOrder(b: Binary, n: nat)
    requires InOrder(b) && n <= |b|
    ensures InOrder(b[..n])
  {
  }

  /** Where an import section may stand, no function section has come. */
  lemma NothingBeforeImports(b: Binary, p: Payload)
    requires InOrder(b + [p]) && p.ImportSection?
    ensures FunctionsOf(b) == []
  {
    forall i | 0 <= i < |b| ensures !b[i].FunctionSection? {
      assert (b + [p])[i] == b[i] && (b + [p])[|b|] == p;
    }
    NoFunctionsYet(b);
  }

  /** In a binary whose sections are in order, the walk's list of functions is the function index space. */
  lemma {:induction false} WalkFindsFunctionSpace(b: Binary)
    requires InOrder(b)
    ensures Walk(b).functions == FunctionSpace(b)
    decreases |b|
  {
    hide Entries, ImportedFunctions, FunctionsOf, ImportsOf, InOrder;
    if b == [] {
      assert FunctionSpace(b) == [] by { EmptySpace(); }
    } else {
      var before, p := b[..|b| - 1], b[|b| - 1];
      assert b == before + [p];
      PrefixInOrder(b, |b| - 1);
      WalkFindsFunctionSpace(before);
      SectionsSnoc(before, p);
      if p.ImportSection? {
        NothingBeforeImports(before, p);
        ImportedFunctionsAppend(ImportsOf(before), p.imports);
        assert FunctionSpace(b) == FunctionSpace(before) + ImportedFunctions(p.imports);
      } else {
        assert ImportsOf(b) == ImportsOf(before);
        assert FunctionSpace(b) == FunctionSpace(before) + FunctionsIn(p);
      }
    }
  }

  lemma EmptySpace()
    ensures FunctionSpace([]) == []
  {
  }

  lemma {:induction false} GetExportExactly(exports: seq<(string, Extern)>, name: string)
    ensures match GetExport(exports, name)
            case Some(x) => exists i :: 0 <= i < |exports| && exports[i] == (name, x)
            case None => forall i :: 0 <= i < |exports| ==> exports[i].0 != name
  {
    if exports != [] && exports[0].0 != name {
      GetExportExactly(exports[1..], name);
      if GetExport(exports, name).Some? {
        var i :| 0 <= i < |exports[1..]| && exports[1..][i] == (name, GetExport(exports, name).value);
        assert exports[i + 1] == (name, GetExport(exports, name).value);
      }
    }
  }

  /** Looking an export up by name in the compiled module finds the one section entry of that name. */
  lemma ExportByName(b: Binary, name: string)
    requires Valid(b)
    ensures var exports := ExportsOf(b);
            match GetExport(CompiledModule(b).exports, name)
            case None => !Exported(exports, name)
            case Some(x) => Exported(exports, name) && forall i :: 0 <= i < |exports| && exports[i].name == name ==>
              x == ExportExtern(TypesOf(b), FunctionSpace(b), exports[i])
  {
    hide InOrder;
    var exports, typed := ExportsOf(b), CompiledModule(b).exports;
    GetExportExactly(typed, name);
    match GetExport(typed, name)
    case None =>
      forall i | 0 <= i < |exports| ensures exports[i].name != name { assert typed[i].0 != name; }
    case Some(x) =>
      var k :| 0 <= k < |typed| && typed[k] == (name, x);
      assert exports[k].name == name;
  }

  lemma ExportsAgree(b: Binary, f: Found)
    requires Valid(b) && f == Found(FuncsOf(TypesOf(b)), FunctionSpace(b), ExportsOf(b), ImportsOf(b))
    ensures ExportsPass(f) <==>
      && GetExport(CompiledModule(b).exports, "memory") == Some(MemoryExtern)
      && GetExport(CompiledModule(b).exports, "invoke") == Some(FuncExtern(INVOKE))
  {
    hide InOrder, CompiledModule;
    ExportByName(b, "memory");
    ExportByName(b, "invoke");
  }

  lemma ImportsAgree(b: Binary, f: Found)
    requires Valid(b) && f == Found(FuncsOf(TypesOf(b)), FunctionSpace(b), ExportsOf(b), ImportsOf(b))
    ensures (forall i :: 0 <= i < |f.imports| ==> ImportPasses(f, f.imports[i]))
       <==> forall i :: 0 <= i < |CompiledModule(b).imports| ==> IsHttpGet(CompiledModule(b).imports[i])
  {
    hide InOrder;
    ImportsAreTyped(b);
    var typed := CompiledModule(b).imports;
    assert |typed| == |f.imports|;
    forall i | 0 <= i < |typed|
      ensures ImportPasses(f, f.imports[i]) <==> IsHttpGet(typed[i])
    {
      assert f.imports[i] in ImportsOf(b);
    }
  }

  /** The section walk agrees with the typed check on every valid binary. */
  lemma WalkAgreesWithModule(b: Binary)
    requires Valid(b)
    ensures WalkPasses(Walk(b)) <==> MeetsAbi(CompiledModule(b))
  {
    hide InOrder, CompiledModule, ExportsPass, ImportPasses, IsHttpGet;
    WalkCollects(b);
    WalkFindsFunctionSpace(b);
    ExportsAgree(b, Walk(b));
    ImportsAgree(b, Walk(b));
  }

  lemma WalkSnoc(b: Binary, p: Payload)
    ensures Walk(b + [p]) == Add(Walk(b), p)
  {
    assert (b + [p])[..|b|] == b;
  }

  /** Validity is needed: with the function section before the import section the walk numbers the functions
      differently and rejects an `invoke` of the right type. */
  lemma OutOfOrderWalkDisagrees(types: Payload, functions: Payload, imports: Payload, exports: Payload)
    requires types == TypeSection([[Func(INVOKE), Func(HTTP_GET)]]) && functions == FunctionSection([0])
    requires imports == ImportSection([Import("nitrum", "http_get", FuncRef(1))])
    requires exports == ExportSection([Export("memory", MemoryKind, 0), Export("invoke", FuncKind, 1)])
    ensures var b := [] + [types] + [functions] + [imports] + [exports];
            && FunctionSpace(b) == [1, 0] && TypesOf(b) == [Func(INVOKE), Func(HTTP_GET)]
            && Walk(b).functions == [0, 1] && !WalkPasses(Walk(b))
  {
    var b1 := [] + [types];
    var b2 := b1 + [functions];
    var b3 := b2 + [imports];
    var b := b3 + [exports];
    SectionsSnoc([], types); SectionsSnoc(b1, functions); SectionsSnoc(b2, imports); SectionsSnoc(b3, exports);
    WalkSnoc([], types); WalkSnoc(b1, functions); WalkSnoc(b2, imports); WalkSnoc(b3, exports);
    WalkCollects(b);
    assert Flatten(types.groups) == types.groups[0];
    assert Walk(b).exports[1].name == "invoke";
    assert Walk(b).types[1] == Some(HTTP_GET) && HTTP_GET.params != INVOKE.params;
  }

  /** The publish check. On every valid binary it accepts exactly what the check of the compiled module accepts. */
  method AssertAbiBytes(b: Binary) returns (r: Result<(), AbiError>)
    ensures r.Ok? <==> WalkPasses(Walk(b))
    ensures Valid(b) ==> (r.Ok? <==> MeetsAbi(CompiledModule(b)))
  {
    assert Valid(b) ==> (WalkPasses(Walk(b)) <==> MeetsAbi(CompiledModule(b))) by {
      if Valid(b) { WalkAgreesWithModule(b); }
    }
    var f := Collect(b);
    r := CheckExports(f);
    if r.Ok? { r := CheckImports(f); }
  }
}

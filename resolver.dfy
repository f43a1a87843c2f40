/**
 * The resolver: it walks a document's imports depth first, guarding against
 * import cycles with a stack of the files being resolved and remembering every
 * resolved file, then collects the document's type definitions and anchors,
 * expands aliases and spreads, and validates the root's typed pairs.
 *
 * Reading a file is a lookup in `files` (a path absent from it cannot be
 * read); the parent and join operations on paths are left uninterpreted.
 */
module Resolver {
  import opened Common
  import opened Ast
  import opened Errors
  import L = Lexer
  import P = Parser
  import opened ResolveValues
  import opened Validation

  type Path = string

  /** A file being resolved and the import statement that led to it (none for the file analysed first). */
  datatype StackEntry = StackEntry(path: Path, causingImport: Option<ImportStatement>)

  /** What parsing a file gives: `Parser::new_with_name` followed by `parse_document`. */
  function ParseSource(text: string): Result<MonDocument, ParserError>
  {
    var st := P.Stream(P.Significant(L.Lex(text)), L.Utf8Length(text));
    match P.DocumentAt(st, 0)
    case Ok(d) => Ok(d.value)
    case Err(e) => Err(e)
  }

  /** The directory imports are resolved against: the file's parent, or `.` when it has none. */
  function CurrentDir(paths: PathOps, filePath: Path): Path
  {
    match paths.parent(filePath)
    case Some(dir) => dir
    case None => "."
  }

  /** The path an import names: its quoted path, unquoted and joined to the importing file's directory. */
  function ImportPath(paths: PathOps, dir: Path, imp: ImportStatement): Path
  {
    paths.join(dir, TrimChar(imp.path, '"'))
  }

  // ---------------------------------------------------------------------
  // The cycle guard
  // ---------------------------------------------------------------------

  /** The first stack entry for `path`. */
  function FirstEntryFor(stack: seq<StackEntry>, path: Path): (r: Option<StackEntry>)
    ensures r.None? <==> forall i | 0 <= i < |stack| :: stack[i].path != path
    ensures r.Some? ==> exists i | 0 <= i < |stack| :: stack[i] == r.value && r.value.path == path
                          && forall j | 0 <= j < i :: stack[j].path != path
  {
    if stack == [] then None
    else if stack[0].path == path then Some(stack[0])
    else
      var r := FirstEntryFor(stack[1..], path);
      if r.Some? then
        var i :| 0 <= i < |stack[1..]| && stack[1..][i] == r.value && r.value.path == path
                 && forall j | 0 <= j < i :: stack[1..][j].path != path;
        assert stack[i + 1] == r.value;
        r
      else r
  }

  /**
   * The cycle check as the resolver makes it: it looks at the first stack
   * entry for the path and reports a cycle only when that entry records the
   * import that led to it. The result is that import.
   */
  function CycleGuard(stack: seq<StackEntry>, path: Path): Option<ImportStatement>
  {
    match FirstEntryFor(stack, path)
    case None => None
    case Some(e) => e.causingImport
  }

  /** No file is on the stack twice. */
  predicate DistinctPaths(stack: seq<StackEntry>)
  {
    forall i, j | 0 <= i < j < |stack| :: stack[i].path != stack[j].path
  }

  /**
   * The cycle check as evidently intended: a file already on the stack is a
   * cycle whatever led to it. The import reported is the one recorded for
   * that file or, for the file analysed first (which records none), the
   * import that reached it again.
   */
  function CycleAt(stack: seq<StackEntry>, path: Path, causingImport: Option<ImportStatement>): (r: Option<ImportStatement>)
    ensures r.None? <==> (forall i | 0 <= i < |stack| :: stack[i].path != path)
                         || (FirstEntryFor(stack, path).value.causingImport.None? && causingImport.None?)
    ensures CycleGuard(stack, path).Some? ==> r == CycleGuard(stack, path)
  {
    match FirstEntryFor(stack, path)
    case None => None
    case Some(e) => if e.causingImport.Some? then e.causingImport else causingImport
  }

  /** The stack of a root file that imports itself, after `n` rounds of re-entering it. */
  function SelfImportStack(root: Path, imp: ImportStatement, n: nat): (r: seq<StackEntry>)
    ensures |r| == n + 1 && r[0] == StackEntry(root, None)
    ensures forall i | 0 < i <= n :: r[i] == StackEntry(root, Some(imp))
  {
    [StackEntry(root, None)] + seq(n, _ => StackEntry(root, Some(imp)))
  }

  /**
   * As written, the guard looks only at the first entry for a path, and the
   * file analysed first records no import: when that file imports itself the
   * guard never fires, however deep the stack has grown, and each round
   * pushes the same file again. The intended check fires on the first round.
   */
  lemma RootSelfImportEscapesGuard(root: Path, imp: ImportStatement, n: nat)
    ensures CycleGuard(SelfImportStack(root, imp, n), root) == None
    ensures n > 0 ==> !DistinctPaths(SelfImportStack(root, imp, n))
    ensures CycleAt(SelfImportStack(root, imp, n), root, Some(imp)) == Some(imp)
  {
    var stack := SelfImportStack(root, imp, n);
    assert FirstEntryFor(stack, root) == Some(stack[0]);
    if n > 0 {
      assert stack[0].path == stack[1].path;
    }
  }

  /**
   * A longer cycle through the file analysed first is reported one lap late
   * as written. Root `a` imports `b` (`ab`) and `b` imports `a` (`ba`): the
   * guard lets `a` through at `ba`, where the intended check reports `ba`;
   * the second `a` then imports `b` again, and only there does the guard
   * fire, reporting `ab` with `a` listed twice in the cycle text.
   */
  lemma RootCycleReportedOneLapLater(a: Path, b: Path, ab: ImportStatement, ba: ImportStatement)
    requires a != b
    ensures var stack := [StackEntry(a, None), StackEntry(b, Some(ab))];
            && CycleGuard(stack, a) == None
            && CycleAt(stack, a, Some(ba)) == Some(ba)
            && CycleText(stack, a) == a + " -> " + b + " -> " + a
    ensures var stack := [StackEntry(a, None), StackEntry(b, Some(ab)), StackEntry(a, Some(ba))];
            && CycleGuard(stack, b) == Some(ab)
            && CycleText(stack, b) == a + " -> " + b + " -> " + a + " -> " + b
  {
    var s2 := [StackEntry(a, None), StackEntry(b, Some(ab))];
    var s3 := [StackEntry(a, None), StackEntry(b, Some(ab)), StackEntry(a, Some(ba))];
    assert FirstEntryFor(s2, a) == Some(s2[0]);
    assert s3[1..] == [StackEntry(b, Some(ab)), StackEntry(a, Some(ba))];
    assert FirstEntryFor(s3[1..], b) == Some(s3[1]);
    assert FirstEntryFor(s3, b) == Some(s3[1]);
    assert StackPaths(s2) == [a, b];
    assert StackPaths(s3) == [a, b, a];
    assert [a, b][1..] == [b] && [a, b, a][1..] == [b, a] && [b, a][1..] == [a];
    assert Join([b, a], " -> ") == b + " -> " + a;
    assert Join([a, b, a], " -> ") == a + " -> " + (b + " -> " + a);
  }

  /** With the intended check, a file re-entered through an import is never pushed twice. */
  lemma PushKeepsPathsDistinct(stack: seq<StackEntry>, path: Path, causingImport: Option<ImportStatement>)
    requires DistinctPaths(stack)
    requires CycleAt(stack, path, causingImport).None?
    requires causingImport.Some? || stack == []
    ensures DistinctPaths(stack + [StackEntry(path, causingImport)])
  {
  }

  /** A stack of distinct files is no deeper than the number of files there are. */
  lemma {:induction false} DistinctStackDepth(stack: seq<StackEntry>, files: set<Path>)
    requires DistinctPaths(stack)
    requires forall i | 0 <= i < |stack| :: stack[i].path in files
    ensures |stack| <= |files|
  {
    if stack != [] {
      var last := stack[|stack| - 1].path;
      var init := stack[..|stack| - 1];
      assert forall i | 0 <= i < |init| :: init[i].path in files - {last} by {
        forall i | 0 <= i < |init|
          ensures init[i].path in files - {last}
        {
          assert init[i] == stack[i];
        }
      }
      DistinctStackDepth(init, files - {last});
    }
  }

  /** The paths on the stack. */
  function StackPaths(stack: seq<StackEntry>): (r: seq<Path>)
    ensures |r| == |stack| && forall i | 0 <= i < |stack| :: r[i] == stack[i].path
  {
    if stack == [] then [] else [stack[0].path] + StackPaths(stack[1..])
  }

  /** The text of a cycle error: the stack's paths and then the path met again, joined by ` -> `. */
  function CycleText(stack: seq<StackEntry>, path: Path): string
  {
    Join(StackPaths(stack), " -> ") + " -> " + path
  }

  // ---------------------------------------------------------------------
  // What a document declares at the top level
  // ---------------------------------------------------------------------

  /** The anchor names declared by the pairs among `ms`. */
  function AnchorNames(ms: seq<Member>): set<string>
  {
    set m | m in ms && m.PairMember? && m.pair.value.anchor.Some? :: m.pair.value.anchor.value
  }

  /** The value of the last pair among `ms` that declares anchor `k`. */
  function LastAnchored(ms: seq<Member>, k: string): MonValue
    requires k in AnchorNames(ms)
  {
    var m := ms[|ms| - 1];
    if m.PairMember? && m.pair.value.anchor == Some(k) then m.pair.value
    else
      assert ms == ms[..|ms| - 1] + [m];
      assert k in AnchorNames(ms[..|ms| - 1]);
      LastAnchored(ms[..|ms| - 1], k)
  }

  /** The anchor table after recording, in order, the value of every pair among `ms` that declares an anchor. */
  function CollectAnchors(a: Anchors, ms: seq<Member>): Anchors
  {
    if ms == [] then a
    else
      var before := CollectAnchors(a, ms[..|ms| - 1]);
      var m := ms[|ms| - 1];
      if m.PairMember? && m.pair.value.anchor.Some? then before[m.pair.value.anchor.value := m.pair.value] else before
  }

  /** The names of the type definitions among `ms`. */
  function TypeNames(ms: seq<Member>): set<string>
  {
    set m | m in ms && m.TypeDefMember? :: m.definition.name
  }

  /** The last type definition among `ms` named `k`. */
  function LastTypeDef(ms: seq<Member>, k: string): TypeDefinition
    requires k in TypeNames(ms)
  {
    var m := ms[|ms| - 1];
    if m.TypeDefMember? && m.definition.name == k then m.definition
    else
      assert ms == ms[..|ms| - 1] + [m];
      assert k in TypeNames(ms[..|ms| - 1]);
      LastTypeDef(ms[..|ms| - 1], k)
  }

  /** The symbol table after recording, in order, every type definition among `ms` under its name. */
  function CollectTypes(t: map<string, TypeDefinition>, ms: seq<Member>): map<string, TypeDefinition>
  {
    if ms == [] then t
    else
      var before := CollectTypes(t, ms[..|ms| - 1]);
      var m := ms[|ms| - 1];
      if m.TypeDefMember? then before[m.definition.name := m.definition] else before
  }

  /**
   * Anchors come only from the pairs of the list given (the root object's own
   * members): each declared name holds the value of the last pair declaring
   * it, and every other entry is left as it was.
   */
  lemma {:induction false} CollectAnchorsSpec(a: Anchors, ms: seq<Member>)
    ensures CollectAnchors(a, ms).Keys == a.Keys + AnchorNames(ms)
    ensures forall k | k in AnchorNames(ms) :: CollectAnchors(a, ms)[k] == LastAnchored(ms, k)
    ensures forall k | k in a && k !in AnchorNames(ms) :: CollectAnchors(a, ms)[k] == a[k]
    decreases |ms|
  {
    if ms != [] {
      var init := ms[..|ms| - 1];
      var m := ms[|ms| - 1];
      assert ms == init + [m];
      CollectAnchorsSpec(a, init);
      assert AnchorNames(ms) == AnchorNames(init) + (if m.PairMember? && m.pair.value.anchor.Some? then {m.pair.value.anchor.value} else {});
    }
  }

  /** Type definitions likewise: each name holds the last definition of that name, other entries are kept. */
  lemma {:induction false} CollectTypesSpec(t: map<string, TypeDefinition>, ms: seq<Member>)
    ensures CollectTypes(t, ms).Keys == t.Keys + TypeNames(ms)
    ensures forall k | k in TypeNames(ms) :: CollectTypes(t, ms)[k] == LastTypeDef(ms, k)
    ensures forall k | k in t && k !in TypeNames(ms) :: CollectTypes(t, ms)[k] == t[k]
    decreases |ms|
  {
    if ms != [] {
      var init := ms[..|ms| - 1];
      var m := ms[|ms| - 1];
      assert ms == init + [m];
      CollectTypesSpec(t, init);
      assert TypeNames(ms) == TypeNames(init) + (if m.TypeDefMember? then {m.definition.name} else {});
    }
  }

  // ---------------------------------------------------------------------
  // Named imports
  // ---------------------------------------------------------------------

  /** The symbol table after recording every definition named `name` among an imported file's members. */
  function DefsNamed(t: map<string, TypeDefinition>, ms: seq<Member>, name: string): map<string, TypeDefinition>
  {
    if ms == [] then t
    else
      var before := DefsNamed(t, ms[..|ms| - 1], name);
      var m := ms[|ms| - 1];
      if m.TypeDefMember? && m.definition.name == name then before[name := m.definition] else before
  }

  /** The symbol table after `{ a, &b, ... }`: each specifier that is not an anchor brings in its definitions. */
  function SpecifierTypes(t: map<string, TypeDefinition>, ms: seq<Member>, specs: seq<ImportSpecifier>): map<string, TypeDefinition>
  {
    if specs == [] then t
    else
      var before := SpecifierTypes(t, ms, specs[..|specs| - 1]);
      var s := specs[|specs| - 1];
      if !s.isAnchor then DefsNamed(before, ms, s.name) else before
  }

  /** The symbol table after every named import whose file has been resolved to an object. */
  function NamedImportTypes(t: map<string, TypeDefinition>, docs: map<Path, MonDocument>, paths: PathOps, dir: Path,
                            imports: seq<ImportStatement>): map<string, TypeDefinition>
  {
    if imports == [] then t
    else
      var before := NamedImportTypes(t, docs, paths, dir, imports[..|imports| - 1]);
      var imp := imports[|imports| - 1];
      var path := ImportPath(paths, dir, imp);
      if imp.spec.Named? && path in docs && docs[path].root.kind.Object? then
        SpecifierTypes(before, docs[path].root.kind.members, imp.spec.specifiers)
      else before
  }

  /** The names a list of named imports can bring into the symbol table: its specifiers that are not anchors. */
  function ImportedTypeNames(imports: seq<ImportStatement>): set<string>
  {
    set imp, s | imp in imports && imp.spec.Named? && s in imp.spec.specifiers && !s.isAnchor :: s.name
  }

  /** A definition is brought in under `name` only if the imported file defines `name`, and it is then the last such definition. */
  lemma {:induction false} DefsNamedSpec(t: map<string, TypeDefinition>, ms: seq<Member>, name: string)
    ensures DefsNamed(t, ms, name) == if name in TypeNames(ms) then t[name := LastTypeDef(ms, name)] else t
    decreases |ms|
  {
    if ms != [] {
      var init := ms[..|ms| - 1];
      var m := ms[|ms| - 1];
      assert ms == init + [m];
      DefsNamedSpec(t, init, name);
      assert TypeNames(ms) == TypeNames(init) + (if m.TypeDefMember? then {m.definition.name} else {});
    }
  }

  lemma {:induction false} SpecifierTypesKeys(t: map<string, TypeDefinition>, ms: seq<Member>, specs: seq<ImportSpecifier>)
    ensures SpecifierTypes(t, ms, specs).Keys <= t.Keys + set s | s in specs && !s.isAnchor :: s.name
    decreases |specs|
  {
    if specs != [] {
      var init := specs[..|specs| - 1];
      var s := specs[|specs| - 1];
      assert specs == init + [s];
      SpecifierTypesKeys(t, ms, init);
      if !s.isAnchor {
        DefsNamedSpec(SpecifierTypes(t, ms, init), ms, s.name);
      }
    }
  }

  /**
   * Named imports add to the symbol table only the names of their specifiers
   * that are not anchors: namespace imports and `&name` specifiers add nothing.
   */
  lemma {:induction false} NamedImportTypesKeys(t: map<string, TypeDefinition>, docs: map<Path, MonDocument>, paths: PathOps,
                                                dir: Path, imports: seq<ImportStatement>)
    ensures NamedImportTypes(t, docs, paths, dir, imports).Keys <= t.Keys + ImportedTypeNames(imports)
    decreases |imports|
  {
    if imports != [] {
      var init := imports[..|imports| - 1];
      var imp := imports[|imports| - 1];
      assert imports == init + [imp];
      NamedImportTypesKeys(t, docs, paths, dir, init);
      assert ImportedTypeNames(init) <= ImportedTypeNames(imports);
      var path := ImportPath(paths, dir, imp);
      if imp.spec.Named? && path in docs && docs[path].root.kind.Object? {
        SpecifierTypesKeys(NamedImportTypes(t, docs, paths, dir, init), docs[path].root.kind.members, imp.spec.specifiers);
      }
    }
  }

  // ---------------------------------------------------------------------
  // The resolver
  // ---------------------------------------------------------------------

  /**
   * The root a document resolves to, given the anchor table, symbol table and
   * resolved files in force once its imports and definitions are recorded:
   * aliases and spreads expanded, then the root's typed pairs validated.
   */
  function ResolvedRoot(anchors: Anchors, ctx: Context, root: MonValue, fuel: nat): Result<MonValue, ResolverError>
  {
    var expanded :- ResolveValue(anchors, root, fuel);
    ValidateDocumentRoot(ctx, expanded, fuel)
  }

  class Resolver {
    /** Every imported file resolved so far, by path. */
    var resolvedDocuments: map<Path, MonDocument>
    /** The files being resolved, outermost first. */
    var resolvingStack: seq<StackEntry>
    /** The symbol table of named types, shared by every file. */
    var types: map<string, TypeDefinition>
    /** The anchor table, shared by every file. */
    var anchors: Anchors
    /** The files that can be read, and their text. */
    const files: map<Path, string>
    const paths: PathOps

    constructor (files: map<Path, string>, paths: PathOps)
      ensures resolvedDocuments == map[] && resolvingStack == [] && types == map[] && anchors == map[]
      ensures this.files == files && this.paths == paths
    {
      resolvedDocuments := map[];
      resolvingStack := [];
      types := map[];
      anchors := map[];
      this.files := files;
      this.paths := paths;
    }

    /** The view of the resolver that validation reads, for a file with the given imports. */
    function Ctx(imports: seq<ImportStatement>, filePath: Path): Context
      reads this
    {
      Context(types, resolvedDocuments, imports, filePath, paths)
    }

    /**
     * `resolve`: resolve `document`, read from `filePath` because of
     * `causingImport`. Imported files are resolved first, each at most once
     * and with one unit less of `fuel`, which bounds the import depth as well
     * as every expansion and validation.
     */
    method Resolve(document: MonDocument, filePath: Path, causingImport: Option<ImportStatement>, fuel: nat)
      returns (r: Result<MonDocument, ResolverError>)
      modifies this
      ensures CycleAt(old(resolvingStack), filePath, causingImport).Some? ==>
                var existing := CycleAt(old(resolvingStack), filePath, causingImport).value;
                && r == Err(CircularDependency(CycleText(old(resolvingStack), filePath), Span(existing.posStart, existing.posEnd)))
                && resolvingStack == old(resolvingStack) && resolvedDocuments == old(resolvedDocuments)
                && types == old(types) && anchors == old(anchors)
      ensures old(resolvedDocuments).Keys <= resolvedDocuments.Keys
      ensures DistinctPaths(old(resolvingStack)) && (causingImport.Some? || old(resolvingStack) == []) ==>
                DistinctPaths(resolvingStack)
      ensures r.Ok? ==> resolvingStack == old(resolvingStack)
      ensures r.Ok? ==> forall imp | imp in document.imports :: ImportPath(paths, CurrentDir(paths, filePath), imp) in resolvedDocuments
      ensures r.Ok? ==> r.value.imports == document.imports
      ensures r.Ok? ==> ResolvedRoot(anchors, Ctx(document.imports, filePath), document.root, fuel) == Ok(r.value.root)
      ensures r.Ok? && document.root.kind.Object? ==>
                var ms := document.root.kind.members;
                && (forall k | k in AnchorNames(ms) :: k in anchors && anchors[k] == LastAnchored(ms, k))
                && (forall k | k in TypeNames(ms) :: k in types && types[k] == LastTypeDef(ms, k))
      decreases fuel, 2
    {
      var existing := CycleAt(resolvingStack, filePath, causingImport);
      if existing.Some? {
        var imp := existing.value;
        return Err(CircularDependency(CycleText(resolvingStack, filePath), Span(imp.posStart, imp.posEnd)));
      }
      ghost var outer := resolvingStack;
      resolvingStack := resolvingStack + [StackEntry(filePath, causingImport)];
      if DistinctPaths(outer) && (causingImport.Some? || outer == []) {
        PushKeepsPathsDistinct(outer, filePath, causingImport);
      }
      var dir := CurrentDir(paths, filePath);

      var imported := ResolveImports(document.imports, dir, fuel);
      if imported.Err? {
        return Err(imported.error);
      }
      RegisterNamedImports(document.imports, dir);
      CollectDefinitions(document.root);

      var root := ResolvedRoot(anchors, Ctx(document.imports, filePath), document.root, fuel);
      if root.Err? {
        return Err(root.error);
      }
      resolvingStack := resolvingStack[..|resolvingStack| - 1];
      r := Ok(MonDocument(root.value, document.imports));
    }

    /**
     * The import loop: each import not yet resolved is read, parsed and
     * resolved (with the import as its cause), then remembered under its path.
     */
    method ResolveImports(imports: seq<ImportStatement>, dir: Path, fuel: nat) returns (r: Result<(), ResolverError>)
      modifies this
      ensures old(resolvedDocuments).Keys <= resolvedDocuments.Keys
      ensures DistinctPaths(old(resolvingStack)) ==> DistinctPaths(resolvingStack)
      ensures r.Ok? ==> resolvingStack == old(resolvingStack)
      ensures r.Ok? ==> forall imp | imp in imports :: ImportPath(paths, dir, imp) in resolvedDocuments
      decreases fuel, 1
    {
      for i := 0 to |imports|
        invariant old(resolvedDocuments).Keys <= resolvedDocuments.Keys
        invariant DistinctPaths(old(resolvingStack)) ==> DistinctPaths(resolvingStack)
        invariant resolvingStack == old(resolvingStack)
        invariant forall j | 0 <= j < i :: ImportPath(paths, dir, imports[j]) in resolvedDocuments
      {
        var one := ResolveImport(imports[i], dir, fuel);
        if one.Err? {
          return one;
        }
      }
      r := Ok(());
    }

    /** One import: skipped when already resolved, otherwise read, parsed, resolved and remembered. */
    method ResolveImport(imp: ImportStatement, dir: Path, fuel: nat) returns (r: Result<(), ResolverError>)
      modifies this
      ensures old(resolvedDocuments).Keys <= resolvedDocuments.Keys
      ensures DistinctPaths(old(resolvingStack)) ==> DistinctPaths(resolvingStack)
      ensures ImportPath(paths, dir, imp) in old(resolvedDocuments) ==> r.Ok? && unchanged(this)
      ensures ImportPath(paths, dir, imp) !in old(resolvedDocuments) && ImportPath(paths, dir, imp) !in files ==>
                r == Err(ModuleNotFound(TrimChar(imp.path, '"'), Span(imp.posStart, imp.posEnd)))
      ensures r.Ok? ==> resolvingStack == old(resolvingStack) && ImportPath(paths, dir, imp) in resolvedDocuments
      decreases fuel, 0
    {
      var path := ImportPath(paths, dir, imp);
      if path in resolvedDocuments {
        return Ok(());
      }
      if path !in files {
        return Err(ModuleNotFound(TrimChar(imp.path, '"'), Span(imp.posStart, imp.posEnd)));
      }
      var parser := new P.Parser(files[path]);
      var parsed := parser.ParseDocument();
      if parsed.Err? {
        return Err(WrappedParserError(parsed.error));
      }
      if fuel == 0 {
        return Err(OutOfFuel);
      }
      var resolved := Resolve(parsed.value, path, Some(imp), fuel - 1);
      if resolved.Err? {
        return Err(resolved.error);
      }
      resolvedDocuments := resolvedDocuments[path := resolved.value];
      r := Ok(());
    }

    /** Named imports of resolved files bring their definitions into the symbol table. */
    method RegisterNamedImports(imports: seq<ImportStatement>, dir: Path)
      modifies this
      ensures types == NamedImportTypes(old(types), resolvedDocuments, paths, dir, imports)
      ensures resolvedDocuments == old(resolvedDocuments) && resolvingStack == old(resolvingStack) && anchors == old(anchors)
    {
      for i := 0 to |imports|
        invariant types == NamedImportTypes(old(types), resolvedDocuments, paths, dir, imports[..i])
        invariant resolvedDocuments == old(resolvedDocuments) && resolvingStack == old(resolvingStack) && anchors == old(anchors)
      {
        assert imports[..i + 1][..i] == imports[..i];
        var imp := imports[i];
        var path := ImportPath(paths, dir, imp);
        if imp.spec.Named? && path in resolvedDocuments && resolvedDocuments[path].root.kind.Object? {
          RegisterSpecifiers(resolvedDocuments[path].root.kind.members, imp.spec.specifiers);
        }
      }
      assert imports[..|imports|] == imports;
    }

    method RegisterSpecifiers(ms: seq<Member>, specs: seq<ImportSpecifier>)
      modifies this
      ensures types == SpecifierTypes(old(types), ms, specs)
      ensures resolvedDocuments == old(resolvedDocuments) && resolvingStack == old(resolvingStack) && anchors == old(anchors)
    {
      for i := 0 to |specs|
        invariant types == SpecifierTypes(old(types), ms, specs[..i])
        invariant resolvedDocuments == old(resolvedDocuments) && resolvingStack == old(resolvingStack) && anchors == old(anchors)
      {
        assert specs[..i + 1][..i] == specs[..i];
        if !specs[i].isAnchor {
          RegisterDefinitionsNamed(ms, specs[i].name);
        }
      }
      assert specs[..|specs|] == specs;
    }

    method RegisterDefinitionsNamed(ms: seq<Member>, name: string)
      modifies this
      ensures types == DefsNamed(old(types), ms, name)
      ensures resolvedDocuments == old(resolvedDocuments) && resolvingStack == old(resolvingStack) && anchors == old(anchors)
    {
      for i := 0 to |ms|
        invariant types == DefsNamed(old(types), ms[..i], name)
        invariant resolvedDocuments == old(resolvedDocuments) && resolvingStack == old(resolvingStack) && anchors == old(anchors)
      {
        assert ms[..i + 1][..i] == ms[..i];
        if ms[i].TypeDefMember? && ms[i].definition.name == name {
          types := types[name := ms[i].definition];
        }
      }
      assert ms[..|ms|] == ms;
    }

    /** The root object's type definitions go into the symbol table, its anchored pairs' raw values into the anchor table. */
    method CollectDefinitions(root: MonValue)
      modifies this
      ensures root.kind.Object? ==> types == CollectTypes(old(types), root.kind.members) && anchors == CollectAnchors(old(anchors), root.kind.members)
      ensures !root.kind.Object? ==> types == old(types) && anchors == old(anchors)
      ensures resolvedDocuments == old(resolvedDocuments) && resolvingStack == old(resolvingStack)
      ensures root.kind.Object? ==>
                && (forall k | k in AnchorNames(root.kind.members) :: k in anchors && anchors[k] == LastAnchored(root.kind.members, k))
                && (forall k | k in TypeNames(root.kind.members) :: k in types && types[k] == LastTypeDef(root.kind.members, k))
    {
      if root.kind.Object? {
        var ms := root.kind.members;
        for i := 0 to |ms|
          invariant types == CollectTypes(old(types), ms[..i]) && anchors == CollectAnchors(old(anchors), ms[..i])
          invariant resolvedDocuments == old(resolvedDocuments) && resolvingStack == old(resolvingStack)
        {
          assert ms[..i + 1][..i] == ms[..i];
          var m := ms[i];
          if m.TypeDefMember? {
            types := types[m.definition.name := m.definition];
          } else if m.PairMember? && m.pair.value.anchor.Some? {
            anchors := anchors[m.pair.value.anchor.value := m.pair.value];
          }
        }
        assert ms[..|ms|] == ms;
        CollectAnchorsSpec(old(anchors), ms);
        CollectTypesSpec(old(types), ms);
      }
    }
  }
}

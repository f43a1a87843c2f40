/**
 * Type validation of resolved values, the second half of the resolver's work
 * on a document. The source checks a value in place and may append default
 * pairs to objects on the way; here each check returns the updated value.
 * When a check fails the source abandons the value anyway, so returning it
 * loses nothing.
 *
 * A struct with two fields of the same name validates the same value twice,
 * the second time after the first pass has changed it, so recursion is not
 * bounded by the value's size. Every descent into a struct or a collection
 * spends one unit of `fuel`; running out is reported as OutOfFuel.
 */
module Validation {
  import opened Common
  import opened Ast
  import opened Errors

  /** The two path operations the resolver uses, left uninterpreted. */
  datatype PathOps = PathOps(parent: string -> Option<string>, join: (string, string) -> string)

  /**
   * What validation reads from the resolver: the symbol table of named types,
   * the documents resolved so far by path, the imports of the current file and
   * its path.
   */
  datatype Context = Context(
    types: map<string, TypeDefinition>,
    resolvedDocuments: map<string, MonDocument>,
    imports: seq<ImportStatement>,
    filePath: string,
    paths: PathOps)

  function Mismatch(fieldName: string, expected: Expected, found: Found, span: Span): ResolverError
  {
    Validation(TypeMismatch(fieldName, expected, found, span))
  }

  // ---------------------------------------------------------------------
  // Built-in types
  // ---------------------------------------------------------------------

  /** The names checked by kind alone. */
  predicate IsBuiltin(name: string)
  {
    name in {"String", "Number", "Boolean", "Null", "Object", "Array"}
  }

  /** The kind a built-in name accepts. */
  predicate KindMatches(name: string, k: MonValueKind)
    requires IsBuiltin(name)
  {
    match name
    case "String" => k.String?
    case "Number" => k.Number?
    case "Boolean" => k.Boolean?
    case "Null" => k.Null?
    case "Object" => k.Object?
    case _ => k.Array?
  }

  // ---------------------------------------------------------------------
  // Finding a named type
  // ---------------------------------------------------------------------

  /** Rust's `split_once`: the text before and after the first `c`. */
  function SplitOnce(s: string, c: char): (r: Option<(string, string)>)
    ensures r.None? <==> c !in s
    ensures r.Some? ==> s == r.value.0 + [c] + r.value.1 && c !in r.value.0
  {
    if s == [] then None
    else if s[0] == c then
      assert s == [] + [c] + s[1..];
      Some(([], s[1..]))
    else
      match SplitOnce(s[1..], c)
      case None => None
      case Some((before, after)) =>
        assert s == [s[0]] + s[1..];
        Some(([s[0]] + before, after))
  }

  /** The first import written `import * as alias from ...`. */
  function FindNamespaceImport(imports: seq<ImportStatement>, alias: string): (r: Option<ImportStatement>)
    ensures r.Some? ==> r.value in imports && r.value.spec == Namespace(alias)
    ensures r.None? ==> forall i | i in imports :: i.spec != Namespace(alias)
  {
    if imports == [] then None
    else if imports[0].spec == Namespace(alias) then Some(imports[0])
    else FindNamespaceImport(imports[1..], alias)
  }

  /** The first type definition named `name` among an object's members. */
  function FindTypeDef(members: seq<Member>, name: string): (r: Option<TypeDef>)
    ensures r.Some? <==> exists m | m in members :: m.TypeDefMember? && m.definition.name == name
  {
    if members == [] then None
    else if members[0].TypeDefMember? && members[0].definition.name == name then Some(members[0].definition.defType)
    else FindTypeDef(members[1..], name)
  }

  /**
   * The definition a written type name refers to. `ns.T` is looked up among
   * the definitions of the file imported as `ns`, found through the import's
   * path relative to the current file's directory; a plain `T` in the symbol
   * table. `span` is the range of the value being checked.
   */
  function LookupType(ctx: Context, typeName: string, span: Span): (r: Result<Option<TypeDef>, ResolverError>)
    ensures '.' !in typeName ==>
              r == Ok(if typeName in ctx.types then Some(ctx.types[typeName].defType) else None)
    ensures '.' in typeName && FindNamespaceImport(ctx.imports, SplitOnce(typeName, '.').value.0).None? ==>
              r == Err(Validation(UndefinedType(typeName, span)))
  {
    match SplitOnce(typeName, '.')
    case None =>
      Ok(if typeName in ctx.types then Some(ctx.types[typeName].defType) else None)
    case Some((namespace, part)) =>
      match FindNamespaceImport(ctx.imports, namespace)
      case None => Err(Validation(UndefinedType(typeName, span)))
      case Some(imp) =>
        match ctx.paths.parent(ctx.filePath)
        case None => Err(ModuleNotFound(imp.path, Span(imp.posStart, imp.posEnd)))
        case Some(dir) =>
          var absolute := ctx.paths.join(dir, TrimChar(imp.path, '"'));
          if absolute !in ctx.resolvedDocuments then Err(ModuleNotFound(absolute, span))
          else
            var root := ctx.resolvedDocuments[absolute].root;
            Ok(if root.kind.Object? then FindTypeDef(root.kind.members, part) else None)
  }

  // ---------------------------------------------------------------------
  // Validation
  // ---------------------------------------------------------------------

  /** Validation changes no value's anchor, range or kind of node. */
  predicate SameShape(a: MonValue, b: MonValue)
  {
    && a.anchor == b.anchor && a.posStart == b.posStart && a.posEnd == b.posEnd
    && (a.kind.Object? <==> b.kind.Object?)
    && (a.kind.Array? <==> b.kind.Array?)
    && (!a.kind.Object? && !a.kind.Array? ==> a.kind == b.kind)
    && (a.kind.Array? ==> |a.kind.elements| == |b.kind.elements|)
  }

  /**
   * `validate_value`: check `v` against `spec`, naming `fieldName` in any
   * mismatch, and return `v` with the defaults of every struct it holds filled in.
   */
  function ValidateValue(ctx: Context, v: MonValue, spec: TypeSpec, fieldName: string, fuel: nat): (r: Result<MonValue, ResolverError>)
    ensures r.Ok? ==> SameShape(v, r.value)
    ensures spec.Simple? && IsBuiltin(spec.name) ==>
              r == if KindMatches(spec.name, v.kind) then Ok(v)
                   else Err(Mismatch(fieldName, TypeNamed(spec.name), KindOf(v.kind), v.SourceSpan()))
    ensures spec.Simple? && spec.name == "Any" ==> r == Ok(v)
    ensures spec.Simple? && !IsBuiltin(spec.name) && spec.name != "Any" && '.' !in spec.name && spec.name !in ctx.types ==>
              r == Err(Validation(UndefinedType(spec.name, v.SourceSpan())))
    ensures spec.Collection? && !v.kind.Array? ==>
              r == Err(Mismatch(fieldName, TypeNamed("Array"), KindOf(v.kind), v.SourceSpan()))
    ensures spec.SpreadOf? ==> r == Ok(v)
    decreases fuel, 0
  {
    var span := v.SourceSpan();
    match spec
    case Simple(name, _) =>
      if IsBuiltin(name) then
        if KindMatches(name, v.kind) then Ok(v) else Err(Mismatch(fieldName, TypeNamed(name), KindOf(v.kind), span))
      else if name == "Any" then Ok(v)
      else
        var def :- LookupType(ctx, name, span);
        (match def
         case None => Err(Validation(UndefinedType(name, span)))
         case Some(Struct(fields, _, _)) =>
           if fuel == 0 then Err(OutOfFuel) else ValidateStruct(ctx, v, fields, name, fieldName, fuel - 1)
         case Some(Enum(variants, _, _)) => ValidateEnum(v, variants, name, fieldName))
    case Collection(types, _) =>
      if !v.kind.Array? then Err(Mismatch(fieldName, TypeNamed("Array"), KindOf(v.kind), span))
      else if fuel == 0 then Err(OutOfFuel)
      else
        var es :- ValidateCollection(ctx, v.kind.elements, types, fieldName, fuel - 1);
        Ok(v.(kind := Array(es)))
    case SpreadOf(_, _) => Ok(v)
  }

  /**
   * What `validate_value` hands a value to: a user type name to the struct
   * or enum it names, and a collection shape on an array to the collection
   * check of its elements.
   */
  lemma ValidateValueDispatch(ctx: Context, v: MonValue, spec: TypeSpec, fieldName: string, fuel: nat)
    ensures spec.Simple? && !IsBuiltin(spec.name) && spec.name != "Any" ==>
              var r := ValidateValue(ctx, v, spec, fieldName, fuel);
              match LookupType(ctx, spec.name, v.SourceSpan())
              case Err(e) => r == Err(e)
              case Ok(None) => r == Err(Validation(UndefinedType(spec.name, v.SourceSpan())))
              case Ok(Some(Enum(variants, _, _))) => r == ValidateEnum(v, variants, spec.name, fieldName)
              case Ok(Some(Struct(fields, _, _))) =>
                r == if fuel == 0 then Err(OutOfFuel) else ValidateStruct(ctx, v, fields, spec.name, fieldName, fuel - 1)
    ensures spec.Collection? && v.kind.Array? ==>
              var r := ValidateValue(ctx, v, spec, fieldName, fuel);
              if fuel == 0 then r == Err(OutOfFuel)
              else
                var checked := ValidateCollection(ctx, v.kind.elements, spec.types, fieldName, fuel - 1);
                && (r.Ok? <==> checked.Ok?)
                && (r.Ok? ==> r.value == v.(kind := Array(checked.value)))
  {
  }

  // ----- enums -----

  /** An enum accepts a value `#T.V` whose written enum name is the full type name and whose variant it declares. */
  function ValidateEnum(v: MonValue, variants: seq<string>, typeName: string, fieldName: string): (r: Result<MonValue, ResolverError>)
    ensures r.Ok? <==> v.kind.EnumValue? && v.kind.enumName == typeName && v.kind.variantName in variants
    ensures r.Ok? ==> r.value == v
    ensures v.kind.EnumValue? && v.kind.enumName != typeName ==>
              r == Err(Mismatch(fieldName, EnumNamed(typeName), EnumNamedFound(v.kind.enumName), v.SourceSpan()))
  {
    var span := v.SourceSpan();
    match v.kind
    case EnumValue(enumName, variant) =>
      if enumName != typeName then Err(Mismatch(fieldName, EnumNamed(typeName), EnumNamedFound(enumName), span))
      else if variant !in variants then Err(Validation(UndefinedEnumVariant(variant, typeName, span)))
      else Ok(v)
    case _ => Err(Mismatch(fieldName, EnumNamed(typeName), KindOf(v.kind), span))
  }

  // ----- structs -----

  /** Some pair of `ms` has key `k`. */
  predicate HasPairKey(ms: seq<Member>, k: string)
  {
    exists i | 0 <= i < |ms| :: ms[i].PairMember? && ms[i].pair.key == k
  }

  /** The position of the last pair with key `k`: the one a key-indexed map of the pairs would hold. */
  function LastPairIndex(ms: seq<Member>, k: string): (r: Option<nat>)
    ensures r.None? <==> !HasPairKey(ms, k)
    ensures r.Some? ==> r.value < |ms| && ms[r.value].PairMember? && ms[r.value].pair.key == k
    ensures r.Some? ==> forall j | r.value < j < |ms| :: !(ms[j].PairMember? && ms[j].pair.key == k)
  {
    if ms == [] then None
    else
      var n := |ms| - 1;
      if ms[n].PairMember? && ms[n].pair.key == k then Some(n)
      else
        var r := LastPairIndex(ms[..n], k);
        assert HasPairKey(ms, k) ==> HasPairKey(ms[..n], k) by {
          if HasPairKey(ms, k) {
            var i :| 0 <= i < |ms| && ms[i].PairMember? && ms[i].pair.key == k;
            assert i < n && ms[..n][i] == ms[i];
          }
        }
        r
  }

  /** Two member lists differ at most in pair values: same length, same keys, other members equal. */
  predicate SameSlots(a: seq<Member>, b: seq<Member>)
  {
    && |a| == |b|
    && forall i | 0 <= i < |a| ::
         if a[i].PairMember? then b[i].PairMember? && b[i].pair.key == a[i].pair.key && b[i].pair.validation == a[i].pair.validation
         else b[i] == a[i]
  }

  lemma SameSlotsKeys(a: seq<Member>, b: seq<Member>, k: string)
    requires SameSlots(a, b)
    ensures HasPairKey(a, k) <==> HasPairKey(b, k)
  {
    if HasPairKey(a, k) {
      var i :| 0 <= i < |a| && a[i].PairMember? && a[i].pair.key == k;
      assert b[i].PairMember? && b[i].pair.key == k;
    }
    if HasPairKey(b, k) {
      var i :| 0 <= i < |b| && b[i].PairMember? && b[i].pair.key == k;
      assert a[i].PairMember? && a[i].pair.key == k;
    }
  }

  /** Lists with the same slots have their last pair with a key at the same position. */
  lemma SameSlotsLastPair(a: seq<Member>, b: seq<Member>, k: string)
    requires SameSlots(a, b)
    ensures LastPairIndex(a, k) == LastPairIndex(b, k)
  {
    SameSlotsKeys(a, b, k);
    var x, y := LastPairIndex(a, k), LastPairIndex(b, k);
    if x.Some? && y.Some? {
      assert b[x.value].PairMember? && b[x.value].pair.key == k;
      assert a[y.value].PairMember? && a[y.value].pair.key == k;
    }
  }

  /** No two declared fields share a name. */
  predicate DistinctNames(fields: seq<FieldDef>)
  {
    forall j, k | 0 <= j < k < |fields| :: fields[j].name != fields[k].name
  }

  /** Distinct names stay distinct in the tail, and none of the tail's names is the first one. */
  lemma DistinctTail(fields: seq<FieldDef>)
    requires fields != []
    ensures DistinctNames(fields) ==> DistinctNames(fields[1..])
    ensures DistinctNames(fields) ==> forall f | f in fields[1..] :: f.name != fields[0].name
  {
    if DistinctNames(fields) {
      forall f | f in fields[1..] ensures f.name != fields[0].name {
        var j :| 0 <= j < |fields[1..]| && fields[1..][j] == f;
        assert fields[j + 1] == f;
      }
    }
  }

  /** Position `i` holds the last pair of some declared field: the field loop checks the value there. */
  predicate IsFieldSlot(ms: seq<Member>, fields: seq<FieldDef>, i: nat)
  {
    exists f | f in fields :: LastPairIndex(ms, f.name) == Some(i)
  }

  /** The pairs appended for the declared fields the object lacks and that have a default, in declaration order. */
  function DefaultsFor(ms: seq<Member>, fields: seq<FieldDef>): seq<Member>
  {
    if fields == [] then []
    else
      var f := fields[0];
      (if !HasPairKey(ms, f.name) && f.defaultValue.Some? then [PairMember(Pair(f.name, f.defaultValue.value, None))] else [])
      + DefaultsFor(ms, fields[1..])
  }

  /** The first field without a default that the object lacks. */
  function FirstRequiredMissing(ms: seq<Member>, fields: seq<FieldDef>): (r: Option<string>)
    ensures r.None? <==> forall f | f in fields :: HasPairKey(ms, f.name) || f.defaultValue.Some?
  {
    if fields == [] then None
    else if !HasPairKey(ms, fields[0].name) && fields[0].defaultValue.None? then Some(fields[0].name)
    else FirstRequiredMissing(ms, fields[1..])
  }

  /**
   * The loop over the declared fields: a present field is checked in place
   * (in the last pair with its key), a missing one without a default fails,
   * a missing one with a default contributes a pair to append. Returns the
   * checked members and the pairs to append.
   */
  function ValidateFields(ctx: Context, ms: seq<Member>, fields: seq<FieldDef>, typeName: string, span: Span, fuel: nat)
    : (r: Result<(seq<Member>, seq<Member>), ResolverError>)
    ensures r.Ok? ==> SameSlots(ms, r.value.0) && r.value.1 == DefaultsFor(ms, fields)
    ensures FirstRequiredMissing(ms, fields).Some? ==> r.Err?
    decreases fuel, 1, |fields|
  {
    if fields == [] then Ok((ms, []))
    else
      var f := fields[0];
      match LastPairIndex(ms, f.name)
      case Some(i) =>
        var value :- ValidateValue(ctx, ms[i].pair.value, f.typeSpec, f.name, fuel);
        var ms' := ms[i := PairMember(ms[i].pair.(value := value))];
        assert SameSlots(ms, ms');
        FieldsKeepDefaults(ms, ms', fields[1..]);
        FieldsKeepRequired(ms, ms', fields[1..]);
        var rest :- ValidateFields(ctx, ms', fields[1..], typeName, span, fuel);
        Ok(rest)
      case None =>
        if f.defaultValue.None? then Err(Validation(MissingField(f.name, typeName, span)))
        else
          var rest :- ValidateFields(ctx, ms, fields[1..], typeName, span, fuel);
          Ok((rest.0, [PairMember(Pair(f.name, f.defaultValue.value, None))] + rest.1))
  }

  /**
   * Replacing the value at the slot of the first field keeps the slots, the
   * defaults and the missing fields of the rest of the loop, and (with
   * distinct names) leaves the slots of the other fields untouched.
   */
  lemma UpdatedSlot(ms: seq<Member>, fields: seq<FieldDef>, i: nat, value: MonValue)
    requires fields != [] && LastPairIndex(ms, fields[0].name) == Some(i)
    ensures var ms' := ms[i := PairMember(ms[i].pair.(value := value))];
            && SameSlots(ms, ms')
            && DefaultsFor(ms, fields) == DefaultsFor(ms', fields[1..])
            && FirstRequiredMissing(ms, fields) == FirstRequiredMissing(ms', fields[1..])
            && (forall g | g in fields[1..] :: LastPairIndex(ms', g.name) == LastPairIndex(ms, g.name))
            && (forall x | 0 <= x < |ms| && !IsFieldSlot(ms, fields, x) :: x != i && !IsFieldSlot(ms', fields[1..], x))
            && (DistinctNames(fields) ==> DistinctNames(fields[1..]) && !IsFieldSlot(ms', fields[1..], i))
  {
    var ms' := ms[i := PairMember(ms[i].pair.(value := value))];
    assert SameSlots(ms, ms');
    assert fields[0] in fields;
    FieldsKeepDefaults(ms, ms', fields[1..]);
    FieldsKeepRequired(ms, ms', fields[1..]);
    forall g | g in fields[1..] ensures LastPairIndex(ms', g.name) == LastPairIndex(ms, g.name) {
      SameSlotsLastPair(ms, ms', g.name);
    }
    DistinctTail(fields);
  }

  lemma {:induction false} FieldsKeepDefaults(a: seq<Member>, b: seq<Member>, fields: seq<FieldDef>)
    requires SameSlots(a, b)
    ensures DefaultsFor(a, fields) == DefaultsFor(b, fields)
    decreases |fields|
  {
    if fields != [] {
      SameSlotsKeys(a, b, fields[0].name);
      FieldsKeepDefaults(a, b, fields[1..]);
    }
  }

  lemma {:induction false} FieldsKeepRequired(a: seq<Member>, b: seq<Member>, fields: seq<FieldDef>)
    requires SameSlots(a, b)
    ensures FirstRequiredMissing(a, fields) == FirstRequiredMissing(b, fields)
    decreases |fields|
  {
    if fields != [] {
      SameSlotsKeys(a, b, fields[0].name);
      FieldsKeepRequired(a, b, fields[1..]);
    }
  }

  predicate IsFieldName(fields: seq<FieldDef>, k: string)
  {
    exists f | f in fields :: f.name == k
  }

  /** The key of the first pair that no declared field names. */
  function FirstUnexpectedKey(ms: seq<Member>, fields: seq<FieldDef>): (r: Option<string>)
    ensures r.None? <==> forall m | m in ms && m.PairMember? :: IsFieldName(fields, m.pair.key)
    ensures r.Some? ==> HasPairKey(ms, r.value) && !IsFieldName(fields, r.value)
  {
    if ms == [] then None
    else if ms[0].PairMember? && !IsFieldName(fields, ms[0].pair.key) then Some(ms[0].pair.key)
    else
      var r := FirstUnexpectedKey(ms[1..], fields);
      assert ms == [ms[0]] + ms[1..];
      if r.Some? then
        assert HasPairKey(ms, r.value) by {
          var i :| 0 <= i < |ms[1..]| && ms[1..][i].PairMember? && ms[1..][i].pair.key == r.value;
          assert ms[i + 1] == ms[1..][i];
        }
        r
      else r
  }

  /**
   * A struct accepts an object: its declared fields are checked, missing
   * ones with defaults are appended, and then any pair whose key is not a
   * declared field is rejected.
   */
  function ValidateStruct(ctx: Context, v: MonValue, fields: seq<FieldDef>, typeName: string, fieldName: string, fuel: nat)
    : (r: Result<MonValue, ResolverError>)
    ensures !v.kind.Object? ==> r == Err(Mismatch(fieldName, TypeNamed(typeName), KindOf(v.kind), v.SourceSpan()))
    ensures r.Ok? ==>
              && v.kind.Object? && r.value.kind.Object?
              && r.value == v.(kind := r.value.kind)
              && var out := r.value.kind.members;
                 var n := |v.kind.members|;
                 && |out| >= n
                 && SameSlots(v.kind.members, out[..n])
                 && out[n..] == DefaultsFor(v.kind.members, fields)
                 && (forall m | m in out && m.PairMember? :: IsFieldName(fields, m.pair.key))
    decreases fuel, 2
  {
    if !v.kind.Object? then Err(Mismatch(fieldName, TypeNamed(typeName), KindOf(v.kind), v.SourceSpan()))
    else
      var checked :- ValidateFields(ctx, v.kind.members, fields, typeName, v.SourceSpan(), fuel);
      var out := checked.0 + checked.1;
      assert out[..|v.kind.members|] == checked.0 && out[|v.kind.members|..] == checked.1;
      match FirstUnexpectedKey(out, fields)
      case Some(k) => Err(Validation(UnexpectedField(k, typeName, v.SourceSpan())))
      case None => Ok(v.(kind := Object(out)))
  }

  // ----- collections -----

  /** The range from the first element's start to the last element's end, or (0, 0) for none. */
  function ElementsSpan(es: seq<MonValue>): Span
  {
    if es == [] then Span(0, 0) else Span(es[0].posStart, es[|es| - 1].posEnd)
  }

  predicate HasSpread(types: seq<TypeSpec>)
  {
    exists t | t in types :: t.SpreadOf?
  }

  /** Every element against the same spec, in order: it passes iff each element does, and holds each element's checked value. */
  function ValidateAll(ctx: Context, es: seq<MonValue>, spec: TypeSpec, fieldName: string, fuel: nat)
    : (r: Result<seq<MonValue>, ResolverError>)
    ensures r.Ok? <==> forall i | 0 <= i < |es| :: ValidateValue(ctx, es[i], spec, fieldName, fuel).Ok?
    ensures r.Ok? ==> |r.value| == |es| && forall i | 0 <= i < |es| :: SameShape(es[i], r.value[i])
    ensures r.Ok? ==> forall i | 0 <= i < |es| :: r.value[i] == ValidateValue(ctx, es[i], spec, fieldName, fuel).value
    decreases fuel, 1, |es|
  {
    if es == [] then Ok([])
    else
      assert forall i | 1 <= i < |es| :: es[1..][i - 1] == es[i];
      var head :- ValidateValue(ctx, es[0], spec, fieldName, fuel);
      var rest :- ValidateAll(ctx, es[1..], spec, fieldName, fuel);
      Ok([head] + rest)
  }

  /** Element `i` against spec `i`: it passes iff each element does, and holds each element's checked value. */
  function ValidatePairwise(ctx: Context, es: seq<MonValue>, types: seq<TypeSpec>, fieldName: string, fuel: nat)
    : (r: Result<seq<MonValue>, ResolverError>)
    requires |es| == |types|
    ensures r.Ok? <==> forall i | 0 <= i < |es| :: ValidateValue(ctx, es[i], types[i], fieldName, fuel).Ok?
    ensures r.Ok? ==> |r.value| == |es| && forall i | 0 <= i < |es| :: SameShape(es[i], r.value[i])
    ensures r.Ok? ==> forall i | 0 <= i < |es| :: r.value[i] == ValidateValue(ctx, es[i], types[i], fieldName, fuel).value
    decreases fuel, 1, |es|
  {
    if es == [] then Ok([])
    else
      assert forall i | 1 <= i < |es| :: es[1..][i - 1] == es[i] && types[1..][i - 1] == types[i];
      var head :- ValidateValue(ctx, es[0], types[0], fieldName, fuel);
      var rest :- ValidatePairwise(ctx, es[1..], types[1..], fieldName, fuel);
      Ok([head] + rest)
  }

  /** `[T1, T2...]` on a non-empty array: the first element against `first`, every later one against `rest`. */
  function ValidateHeadAndRest(ctx: Context, es: seq<MonValue>, first: TypeSpec, rest: TypeSpec, fieldName: string, fuel: nat)
    : (r: Result<seq<MonValue>, ResolverError>)
    requires es != []
    ensures r.Ok? <==> ValidateValue(ctx, es[0], first, fieldName, fuel).Ok?
                       && forall i | 1 <= i < |es| :: ValidateValue(ctx, es[i], rest, fieldName, fuel).Ok?
    ensures r.Ok? ==> |r.value| == |es| && forall i | 0 <= i < |es| :: SameShape(es[i], r.value[i])
    ensures r.Ok? ==> && r.value[0] == ValidateValue(ctx, es[0], first, fieldName, fuel).value
                      && forall i | 1 <= i < |es| :: r.value[i] == ValidateValue(ctx, es[i], rest, fieldName, fuel).value
    decreases fuel, 1, |es| + 1
  {
    assert forall i | 1 <= i < |es| :: es[1..][i - 1] == es[i];
    var head :- ValidateValue(ctx, es[0], first, fieldName, fuel);
    var tail :- ValidateAll(ctx, es[1..], rest, fieldName, fuel);
    Ok([head] + tail)
  }

  /** `[T1..., T2]` on a non-empty array: the last element against `last`, every earlier one against `init`. */
  function ValidateInitAndLast(ctx: Context, es: seq<MonValue>, init: TypeSpec, last: TypeSpec, fieldName: string, fuel: nat)
    : (r: Result<seq<MonValue>, ResolverError>)
    requires es != []
    ensures r.Ok? <==> ValidateValue(ctx, es[|es| - 1], last, fieldName, fuel).Ok?
                       && forall i | 0 <= i < |es| - 1 :: ValidateValue(ctx, es[i], init, fieldName, fuel).Ok?
    ensures r.Ok? ==> |r.value| == |es| && forall i | 0 <= i < |es| :: SameShape(es[i], r.value[i])
    ensures r.Ok? ==> && r.value[|es| - 1] == ValidateValue(ctx, es[|es| - 1], last, fieldName, fuel).value
                      && forall i | 0 <= i < |es| - 1 :: r.value[i] == ValidateValue(ctx, es[i], init, fieldName, fuel).value
    decreases fuel, 1, |es| + 1
  {
    var n := |es| - 1;
    assert forall i | 0 <= i < n :: es[..n][i] == es[i];
    var final :- ValidateValue(ctx, es[n], last, fieldName, fuel);
    var front :- ValidateAll(ctx, es[..n], init, fieldName, fuel);
    Ok(front + [final])
  }

  /**
   * `validate_collection`: the array shapes the resolver knows, tried in
   * order: `[T]`, `[T...]`, a tuple without spreads, `[T1, T2...]` and
   * `[T1..., T2]`.
   */
  function ValidateCollection(ctx: Context, es: seq<MonValue>, types: seq<TypeSpec>, fieldName: string, fuel: nat)
    : (r: Result<seq<MonValue>, ResolverError>)
    ensures r.Ok? ==> |r.value| == |es| && forall i | 0 <= i < |es| :: SameShape(es[i], r.value[i])
    // `[T]`: only element 0 is checked, and an empty array makes the source index out of bounds
    ensures |types| == 1 && !types[0].SpreadOf? && es == [] ==> r == Err(IndexPanic(fieldName))
    ensures |types| == 1 && !types[0].SpreadOf? && es != [] ==>
              && (r.Ok? <==> ValidateValue(ctx, es[0], types[0], fieldName, fuel).Ok?)
              && (r.Ok? ==> r.value[0] == ValidateValue(ctx, es[0], types[0], fieldName, fuel).value && r.value[1..] == es[1..])
    // `[T...]`: every element against T, so the empty array is valid
    ensures |types| == 1 && types[0].SpreadOf? ==>
              && (r.Ok? <==> forall i | 0 <= i < |es| :: ValidateValue(ctx, es[i], types[0].inner, fieldName, fuel).Ok?)
              && (r.Ok? ==> forall i | 0 <= i < |es| :: r.value[i] == ValidateValue(ctx, es[i], types[0].inner, fieldName, fuel).value)
    // a tuple needs exactly one element per type, element i checked against type i
    ensures !HasSpread(types) && |types| != 1 && |es| != |types| ==>
              r == Err(Mismatch(fieldName, TupleOf(|types|), TupleOfFound(|es|), ElementsSpan(es)))
    ensures !HasSpread(types) && |types| != 1 && |es| == |types| ==>
              && (r.Ok? <==> forall i | 0 <= i < |es| :: ValidateValue(ctx, es[i], types[i], fieldName, fuel).Ok?)
              && (r.Ok? ==> forall i | 0 <= i < |es| :: r.value[i] == ValidateValue(ctx, es[i], types[i], fieldName, fuel).value)
    // `[T1, T2...]` and `[T1..., T2]` need at least one element
    ensures |types| == 2 && types[0].SpreadOf? != types[1].SpreadOf? && es == [] ==>
              r == Err(Mismatch(fieldName, AtLeastOneElement, EmptyArray, ElementsSpan(es)))
    // `[T1, T2...]`: the first element against T1, the rest against T2
    ensures |types| == 2 && !types[0].SpreadOf? && types[1].SpreadOf? && es != [] ==>
              r == ValidateHeadAndRest(ctx, es, types[0], types[1].inner, fieldName, fuel)
    // `[T1..., T2]`: the last element against T2, the rest against T1
    ensures |types| == 2 && types[0].SpreadOf? && !types[1].SpreadOf? && es != [] ==>
              r == ValidateInitAndLast(ctx, es, types[0].inner, types[1], fieldName, fuel)
    // any other shape with a spread is not supported
    ensures HasSpread(types) && |types| != 1 && !(|types| == 2 && types[0].SpreadOf? != types[1].SpreadOf?) ==>
              r == Err(Validation(UnimplementedCollectionValidation(fieldName, ElementsSpan(es))))
    decreases fuel, 2
  {
    var span := ElementsSpan(es);
    if |types| == 1 && !types[0].SpreadOf? then
      if es == [] then Err(IndexPanic(fieldName))
      else
        var first :- ValidateValue(ctx, es[0], types[0], fieldName, fuel);
        Ok([first] + es[1..])
    else if |types| == 1 then
      ValidateAll(ctx, es, types[0].inner, fieldName, fuel)
    else if !HasSpread(types) then
      if |es| != |types| then Err(Mismatch(fieldName, TupleOf(|types|), TupleOfFound(|es|), span))
      else ValidatePairwise(ctx, es, types, fieldName, fuel)
    else if |types| == 2 && !types[0].SpreadOf? && types[1].SpreadOf? then
      if es == [] then Err(Mismatch(fieldName, AtLeastOneElement, EmptyArray, span))
      else ValidateHeadAndRest(ctx, es, types[0], types[1].inner, fieldName, fuel)
    else if |types| == 2 && types[0].SpreadOf? && !types[1].SpreadOf? then
      if es == [] then Err(Mismatch(fieldName, AtLeastOneElement, EmptyArray, span))
      else ValidateInitAndLast(ctx, es, types[0].inner, types[1], fieldName, fuel)
    else Err(Validation(UnimplementedCollectionValidation(fieldName, span)))
  }

  // ---------------------------------------------------------------------
  // The document root
  // ---------------------------------------------------------------------

  /** A root pair that carries `:: T`. */
  predicate Annotated(m: Member)
  {
    m.PairMember? && m.pair.validation.Some?
  }

  /** The check of an annotated root pair: its value against its annotation, named by its key. */
  function RootCheck(ctx: Context, m: Member, fuel: nat): Result<MonValue, ResolverError>
    requires Annotated(m)
  {
    ValidateValue(ctx, m.pair.value, m.pair.validation.value, m.pair.key, fuel)
  }

  /**
   * Each root pair that carries `:: T` has its value checked against `T`,
   * named by its key: the root passes iff every annotated pair does, and then
   * each annotated pair holds its checked value and every other member is
   * left as it was.
   */
  function ValidateRootMembers(ctx: Context, ms: seq<Member>, fuel: nat): (r: Result<seq<Member>, ResolverError>)
    ensures r.Ok? <==> forall i | 0 <= i < |ms| && Annotated(ms[i]) :: RootCheck(ctx, ms[i], fuel).Ok?
    ensures r.Ok? ==> SameSlots(ms, r.value)
    ensures r.Ok? ==> forall i | 0 <= i < |ms| && Annotated(ms[i]) ::
                        r.value[i] == PairMember(ms[i].pair.(value := RootCheck(ctx, ms[i], fuel).value))
    ensures r.Ok? ==> forall i | 0 <= i < |ms| && !Annotated(ms[i]) :: r.value[i] == ms[i]
  {
    if ms == [] then Ok([])
    else
      assert forall i | 1 <= i < |ms| :: ms[1..][i - 1] == ms[i];
      var head :- (
        var m := ms[0];
        if Annotated(m) then
          var value :- RootCheck(ctx, m, fuel);
          Ok(PairMember(m.pair.(value := value)))
        else Ok(m));
      var rest :- ValidateRootMembers(ctx, ms[1..], fuel);
      Ok([head] + rest)
  }

  /**
   * `validate_document_root`: only a root object's own pairs are checked; any
   * other root is returned as it is. An object root passes iff each of its
   * annotated pairs passes its annotation, and then holds those pairs'
   * checked values in place.
   */
  function ValidateDocumentRoot(ctx: Context, root: MonValue, fuel: nat): (r: Result<MonValue, ResolverError>)
    ensures !root.kind.Object? ==> r == Ok(root)
    ensures root.kind.Object? ==>
              var ms := root.kind.members;
              && (r.Ok? <==> forall i | 0 <= i < |ms| && Annotated(ms[i]) :: RootCheck(ctx, ms[i], fuel).Ok?)
              && (r.Ok? ==> && r.value.kind.Object? && r.value == root.(kind := r.value.kind)
                            && SameSlots(ms, r.value.kind.members)
                            && (forall i | 0 <= i < |ms| && Annotated(ms[i]) ::
                                  r.value.kind.members[i] == PairMember(ms[i].pair.(value := RootCheck(ctx, ms[i], fuel).value)))
                            && (forall i | 0 <= i < |ms| && !Annotated(ms[i]) :: r.value.kind.members[i] == ms[i]))
  {
    if root.kind.Object? then
      var ms :- ValidateRootMembers(ctx, root.kind.members, fuel);
      Ok(root.(kind := Object(ms)))
    else Ok(root)
  }

  // ---------------------------------------------------------------------
  // Struct properties
  // ---------------------------------------------------------------------

  /**
   * When the object holds none of the declared fields, the first declared
   * field without a default is reported missing, whatever other keys the
   * object has: the missing-field check comes before the extra-field check.
   */
  lemma {:induction false} MissingFieldReportedFirst(ctx: Context, ms: seq<Member>, fields: seq<FieldDef>, typeName: string, span: Span, fuel: nat)
    requires forall f | f in fields :: !HasPairKey(ms, f.name)
    requires FirstRequiredMissing(ms, fields).Some?
    ensures ValidateFields(ctx, ms, fields, typeName, span, fuel) ==
            Err(Validation(MissingField(FirstRequiredMissing(ms, fields).value, typeName, span)))
    decreases |fields|
  {
    var f := fields[0];
    assert LastPairIndex(ms, f.name).None?;
    if f.defaultValue.Some? {
      MissingFieldReportedFirst(ctx, ms, fields[1..], typeName, span, fuel);
    }
  }

  /** A key held by either part of a concatenation is held by the whole. */
  lemma PairKeyInAppend(a: seq<Member>, b: seq<Member>, k: string)
    ensures HasPairKey(a, k) || HasPairKey(b, k) ==> HasPairKey(a + b, k)
  {
    if HasPairKey(a, k) {
      var i :| 0 <= i < |a| && a[i].PairMember? && a[i].pair.key == k;
      assert (a + b)[i] == a[i];
    } else if HasPairKey(b, k) {
      var i :| 0 <= i < |b| && b[i].PairMember? && b[i].pair.key == k;
      assert (a + b)[|a| + i] == b[i];
    }
  }

  /** The appended defaults supply every declared field that has a default and that the object lacks. */
  lemma {:induction false} DefaultsCoverMissing(ms: seq<Member>, fields: seq<FieldDef>)
    ensures forall f | f in fields && !HasPairKey(ms, f.name) && f.defaultValue.Some? :: HasPairKey(DefaultsFor(ms, fields), f.name)
    decreases |fields|
  {
    if fields != [] {
      var f0 := fields[0];
      var head := if !HasPairKey(ms, f0.name) && f0.defaultValue.Some? then [PairMember(Pair(f0.name, f0.defaultValue.value, None))] else [];
      var tail := DefaultsFor(ms, fields[1..]);
      assert DefaultsFor(ms, fields) == head + tail;
      DefaultsCoverMissing(ms, fields[1..]);
      forall f | f in fields && !HasPairKey(ms, f.name) && f.defaultValue.Some?
        ensures HasPairKey(head + tail, f.name)
      {
        if f == f0 {
          assert head[0].PairMember? && head[0].pair.key == f.name;
        } else {
          assert f in fields[1..];
        }
        PairKeyInAppend(head, tail, f.name);
      }
    }
  }

  // ---------------------------------------------------------------------
  // What the struct check checks
  // ---------------------------------------------------------------------

  /** The check of a present field: its type against the value in the last pair with its key. */
  function SlotCheck(ctx: Context, ms: seq<Member>, f: FieldDef, fuel: nat): Result<MonValue, ResolverError>
    requires LastPairIndex(ms, f.name).Some?
  {
    ValidateValue(ctx, ms[LastPairIndex(ms, f.name).value].pair.value, f.typeSpec, f.name, fuel)
  }

  /** Every declared field the object has passes its type. */
  predicate FieldsPass(ctx: Context, ms: seq<Member>, fields: seq<FieldDef>, fuel: nat)
  {
    forall f | f in fields && LastPairIndex(ms, f.name).Some? :: SlotCheck(ctx, ms, f, fuel).Ok?
  }

  /** One round of the field loop on a present field, as an equation. */
  lemma FieldsStepPresent(ctx: Context, ms: seq<Member>, fields: seq<FieldDef>, typeName: string, span: Span, fuel: nat, i: nat)
    requires fields != [] && LastPairIndex(ms, fields[0].name) == Some(i)
    ensures var vr := SlotCheck(ctx, ms, fields[0], fuel);
            ValidateFields(ctx, ms, fields, typeName, span, fuel)
            == if vr.Err? then Err(vr.error)
               else ValidateFields(ctx, ms[i := PairMember(ms[i].pair.(value := vr.value))], fields[1..], typeName, span, fuel)
  {
  }

  /** A declared field is the first one or one of the rest. */
  lemma FirstOrRest(fields: seq<FieldDef>, g: FieldDef)
    requires g in fields
    ensures g == fields[0] || g in fields[1..]
  {
    var j :| 0 <= j < |fields| && fields[j] == g;
    if j > 0 { assert fields[1..][j - 1] == g; }
  }

  /**
   * After the first field's slot is replaced, the other fields (with distinct
   * names) find the same slots holding the same values, so their checks are
   * unchanged.
   */
  lemma OtherSlotsUnchanged(ctx: Context, ms: seq<Member>, fields: seq<FieldDef>, i: nat, value: MonValue, fuel: nat)
    requires fields != [] && LastPairIndex(ms, fields[0].name) == Some(i) && DistinctNames(fields)
    ensures var ms' := ms[i := PairMember(ms[i].pair.(value := value))];
            forall g | g in fields[1..] && LastPairIndex(ms, g.name).Some? ::
              && LastPairIndex(ms', g.name) == LastPairIndex(ms, g.name)
              && LastPairIndex(ms, g.name).value != i
              && SlotCheck(ctx, ms', g, fuel) == SlotCheck(ctx, ms, g, fuel)
  {
    var ms' := ms[i := PairMember(ms[i].pair.(value := value))];
    UpdatedSlot(ms, fields, i, value);
    forall g | g in fields[1..] && LastPairIndex(ms, g.name).Some?
      ensures LastPairIndex(ms, g.name).value != i
    {
      assert LastPairIndex(ms', g.name) == LastPairIndex(ms, g.name);
    }
  }

  /** The field loop leaves every member that is not the slot of a declared field as it was. */
  lemma {:induction false} FieldsKeepOthers(ctx: Context, ms: seq<Member>, fields: seq<FieldDef>, typeName: string, span: Span, fuel: nat)
    ensures var r := ValidateFields(ctx, ms, fields, typeName, span, fuel);
            r.Ok? ==> forall x | 0 <= x < |ms| && !IsFieldSlot(ms, fields, x) :: r.value.0[x] == ms[x]
    decreases |fields|
  {
    if fields != [] {
      var f := fields[0];
      assert f in fields;
      match LastPairIndex(ms, f.name)
      case Some(i) =>
        var vr := SlotCheck(ctx, ms, f, fuel);
        FieldsStepPresent(ctx, ms, fields, typeName, span, fuel, i);
        if vr.Ok? {
          UpdatedSlot(ms, fields, i, vr.value);
          FieldsKeepOthers(ctx, ms[i := PairMember(ms[i].pair.(value := vr.value))], fields[1..], typeName, span, fuel);
        }
      case None =>
        if f.defaultValue.Some? {
          FieldsKeepOthers(ctx, ms, fields[1..], typeName, span, fuel);
          forall x | 0 <= x < |ms| && !IsFieldSlot(ms, fields, x) ensures !IsFieldSlot(ms, fields[1..], x) {
          }
        }
    }
  }

  /**
   * With distinct field names, the field loop succeeds exactly when no field
   * without a default is missing and every present field passes its type.
   */
  lemma {:induction false} FieldsChecked(ctx: Context, ms: seq<Member>, fields: seq<FieldDef>, typeName: string, span: Span, fuel: nat)
    requires DistinctNames(fields)
    ensures ValidateFields(ctx, ms, fields, typeName, span, fuel).Ok?
            <==> FirstRequiredMissing(ms, fields).None? && FieldsPass(ctx, ms, fields, fuel)
    decreases |fields|
  {
    if fields != [] {
      var f := fields[0];
      assert f in fields;
      DistinctTail(fields);
      forall g | g in fields ensures g == f || g in fields[1..] { FirstOrRest(fields, g); }
      match LastPairIndex(ms, f.name)
      case Some(i) =>
        var vr := SlotCheck(ctx, ms, f, fuel);
        FieldsStepPresent(ctx, ms, fields, typeName, span, fuel, i);
        if vr.Ok? {
          var ms' := ms[i := PairMember(ms[i].pair.(value := vr.value))];
          UpdatedSlot(ms, fields, i, vr.value);
          OtherSlotsUnchanged(ctx, ms, fields, i, vr.value, fuel);
          FieldsChecked(ctx, ms', fields[1..], typeName, span, fuel);
        }
      case None =>
        if f.defaultValue.Some? {
          FieldsChecked(ctx, ms, fields[1..], typeName, span, fuel);
        }
    }
  }

  /**
   * With distinct field names, a successful field loop holds, at each present
   * field's slot, that field's value as its check returned it.
   */
  lemma {:induction false} FieldsCheckedValues(ctx: Context, ms: seq<Member>, fields: seq<FieldDef>, typeName: string, span: Span, fuel: nat)
    requires DistinctNames(fields)
    ensures var r := ValidateFields(ctx, ms, fields, typeName, span, fuel);
            r.Ok? ==> forall f | f in fields && LastPairIndex(ms, f.name).Some? ::
                        && SlotCheck(ctx, ms, f, fuel).Ok?
                        && r.value.0[LastPairIndex(ms, f.name).value].pair.value == SlotCheck(ctx, ms, f, fuel).value
    decreases |fields|
  {
    FieldsChecked(ctx, ms, fields, typeName, span, fuel);
    if fields != [] {
      var f := fields[0];
      assert f in fields;
      DistinctTail(fields);
      forall g | g in fields ensures g == f || g in fields[1..] { FirstOrRest(fields, g); }
      match LastPairIndex(ms, f.name)
      case Some(i) =>
        var vr := SlotCheck(ctx, ms, f, fuel);
        FieldsStepPresent(ctx, ms, fields, typeName, span, fuel, i);
        if vr.Ok? {
          var ms' := ms[i := PairMember(ms[i].pair.(value := vr.value))];
          UpdatedSlot(ms, fields, i, vr.value);
          OtherSlotsUnchanged(ctx, ms, fields, i, vr.value, fuel);
          FieldsCheckedValues(ctx, ms', fields[1..], typeName, span, fuel);
          FieldsKeepOthers(ctx, ms', fields[1..], typeName, span, fuel);
        }
      case None =>
        if f.defaultValue.Some? {
          FieldsCheckedValues(ctx, ms, fields[1..], typeName, span, fuel);
        }
    }
  }

  /** Every appended default is a pair named by a declared field. */
  lemma {:induction false} DefaultsDeclared(ms: seq<Member>, fields: seq<FieldDef>)
    ensures forall m | m in DefaultsFor(ms, fields) :: m.PairMember? && IsFieldName(fields, m.pair.key)
    decreases |fields|
  {
    if fields != [] {
      assert fields[0] in fields;
      DefaultsDeclared(ms, fields[1..]);
      forall m | m in DefaultsFor(ms, fields[1..]) ensures IsFieldName(fields, m.pair.key) {
        var f :| f in fields[1..] && f.name == m.pair.key;
        var j :| 0 <= j < |fields[1..]| && fields[1..][j] == f;
        assert fields[j + 1] == f;
      }
    }
  }

  /** Lists with the same slots have the same pair keys, so one holds only declared keys iff the other does. */
  lemma SameSlotsDeclared(a: seq<Member>, b: seq<Member>, fields: seq<FieldDef>)
    requires SameSlots(a, b)
    ensures (forall m | m in a && m.PairMember? :: IsFieldName(fields, m.pair.key))
            <==> (forall m | m in b && m.PairMember? :: IsFieldName(fields, m.pair.key))
  {
    if forall m | m in a && m.PairMember? :: IsFieldName(fields, m.pair.key) {
      forall m | m in b && m.PairMember? ensures IsFieldName(fields, m.pair.key) {
        var i :| 0 <= i < |b| && b[i] == m;
        assert a[i] in a;
      }
    }
    if forall m | m in b && m.PairMember? :: IsFieldName(fields, m.pair.key) {
      forall m | m in a && m.PairMember? ensures IsFieldName(fields, m.pair.key) {
        var i :| 0 <= i < |a| && a[i] == m;
        assert b[i] in b;
      }
    }
  }

  /**
   * With distinct field names, a struct check of an object succeeds exactly
   * when no field without a default is missing, every present field passes
   * its type and every key is declared.
   */
  lemma StructChecksFields(ctx: Context, v: MonValue, fields: seq<FieldDef>, typeName: string, fieldName: string, fuel: nat)
    requires DistinctNames(fields)
    ensures v.kind.Object? ==>
              var ms := v.kind.members;
              (ValidateStruct(ctx, v, fields, typeName, fieldName, fuel).Ok?
               <==> && FirstRequiredMissing(ms, fields).None?
                    && FieldsPass(ctx, ms, fields, fuel)
                    && forall m | m in ms && m.PairMember? :: IsFieldName(fields, m.pair.key))
  {
    if v.kind.Object? {
      var ms := v.kind.members;
      FieldsChecked(ctx, ms, fields, typeName, v.SourceSpan(), fuel);
      var c := ValidateFields(ctx, ms, fields, typeName, v.SourceSpan(), fuel);
      if c.Ok? {
        var out := c.value.0 + c.value.1;
        DefaultsDeclared(ms, fields);
        SameSlotsDeclared(ms, c.value.0, fields);
        assert (forall m | m in out && m.PairMember? :: IsFieldName(fields, m.pair.key))
               <==> (forall m | m in c.value.0 && m.PairMember? :: IsFieldName(fields, m.pair.key));
      }
    }
  }

  /**
   * With distinct field names, a successful struct check holds each present
   * field's checked value at that field's slot, and every other member of the
   * object unchanged.
   */
  lemma StructCheckedValues(ctx: Context, v: MonValue, fields: seq<FieldDef>, typeName: string, fieldName: string, fuel: nat)
    requires DistinctNames(fields)
    ensures var r := ValidateStruct(ctx, v, fields, typeName, fieldName, fuel);
            r.Ok? ==>
              var ms := v.kind.members;
              && (forall f | f in fields && LastPairIndex(ms, f.name).Some? ::
                    && SlotCheck(ctx, ms, f, fuel).Ok?
                    && r.value.kind.members[LastPairIndex(ms, f.name).value].pair.value == SlotCheck(ctx, ms, f, fuel).value)
              && (forall x | 0 <= x < |ms| && !IsFieldSlot(ms, fields, x) :: r.value.kind.members[x] == ms[x])
  {
    if v.kind.Object? {
      var ms := v.kind.members;
      FieldsCheckedValues(ctx, ms, fields, typeName, v.SourceSpan(), fuel);
      FieldsKeepOthers(ctx, ms, fields, typeName, v.SourceSpan(), fuel);
      var c := ValidateFields(ctx, ms, fields, typeName, v.SourceSpan(), fuel);
      if c.Ok? {
        var out := c.value.0 + c.value.1;
        assert forall x | 0 <= x < |ms| :: out[x] == c.value.0[x];
      }
    }
  }

  /**
   * A struct check that succeeds leaves every declared field present in the
   * object, and no pair that is not a declared field.
   */
  lemma StructHasExactlyDeclaredFields(ctx: Context, v: MonValue, fields: seq<FieldDef>, typeName: string, fieldName: string, fuel: nat)
    requires ValidateStruct(ctx, v, fields, typeName, fieldName, fuel).Ok?
    ensures var out := ValidateStruct(ctx, v, fields, typeName, fieldName, fuel).value.kind.members;
            && (forall f | f in fields :: HasPairKey(out, f.name))
            && (forall m | m in out && m.PairMember? :: IsFieldName(fields, m.pair.key))
  {
    var ms := v.kind.members;
    var out := ValidateStruct(ctx, v, fields, typeName, fieldName, fuel).value.kind.members;
    var n := |ms|;
    assert FirstRequiredMissing(ms, fields).None?;
    DefaultsCoverMissing(ms, fields);
    forall f | f in fields ensures HasPairKey(out, f.name) {
      if HasPairKey(ms, f.name) {
        SameSlotsKeys(ms, out[..n], f.name);
        var i :| 0 <= i < n && out[..n][i].PairMember? && out[..n][i].pair.key == f.name;
        assert out[i] == out[..n][i];
      } else {
        var i :| 0 <= i < |out[n..]| && out[n..][i].PairMember? && out[n..][i].pair.key == f.name;
        assert out[n + i] == out[n..][i];
      }
    }
  }
}

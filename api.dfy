/**
 * The editor queries on the outcome of an analysis: the definition of the
 * symbol under the cursor, its type for a hover, and its references; and
 * the printed form of a type annotation.
 */
module Api {
  import opened Common
  import opened Ast
  import opened Lsp

  /**
   * `AnalysisResult`: the resolved document, the document as parsed, and the
   * resolver's symbol and anchor tables. The queries read the parsed tree.
   */
  datatype AnalysisResult = AnalysisResult(
    document: MonDocument,
    unresolvedDocument: MonDocument,
    types: map<string, TypeDefinition>,
    anchors: map<string, MonValue>)

  // ---------------------------------------------------------------------
  // The printed form of a type annotation
  // ---------------------------------------------------------------------

  /** A simple annotation prints its name, a collection its children in brackets, a spread its inner annotation and `...`. */
  function TypeSpecText(t: TypeSpec): string
    decreases t
  {
    match t
    case Simple(name, _) => name
    case Collection(ts, _) => "[" + ListText(ts) + "]"
    case SpreadOf(inner, _) => TypeSpecText(inner) + "..."
  }

  /** The children's printed forms, separated by `, `. */
  function ListText(ts: seq<TypeSpec>): string
    decreases ts
  {
    if ts == [] then ""
    else if |ts| == 1 then TypeSpecText(ts[0])
    else ListText(ts[..|ts| - 1]) + ", " + TypeSpecText(ts[|ts| - 1])
  }

  /** The printed forms of the children, one by one. */
  function Texts(ts: seq<TypeSpec>): (r: seq<string>)
    ensures |r| == |ts|
    ensures forall i | 0 <= i < |ts| :: r[i] == TypeSpecText(ts[i])
  {
    if ts == [] then [] else Texts(ts[..|ts| - 1]) + [TypeSpecText(ts[|ts| - 1])]
  }

  lemma {:induction false} JoinSnoc(parts: seq<string>, x: string, sep: string)
    requires parts != []
    ensures Join(parts + [x], sep) == Join(parts, sep) + sep + x
    decreases |parts|
  {
    if |parts| > 1 {
      assert (parts + [x])[1..] == parts[1..] + [x];
      JoinSnoc(parts[1..], x, sep);
    }
  }

  /** The children are printed exactly as the general `join` of their printed forms with `, `. */
  lemma {:induction false} ListTextIsJoin(ts: seq<TypeSpec>)
    ensures ListText(ts) == Join(Texts(ts), ", ")
  {
    if |ts| == 1 {
      assert Texts(ts) == [] + [TypeSpecText(ts[0])];
    } else if |ts| > 1 {
      var init := ts[..|ts| - 1];
      ListTextIsJoin(init);
      JoinSnoc(Texts(init), TypeSpecText(ts[|ts| - 1]), ", ");
    }
  }

  /** `Display for TypeSpec`: the children of a collection are written one by one, with `, ` after all but the last. */
  method Display(t: TypeSpec) returns (s: string)
    ensures s == TypeSpecText(t)
    decreases t
  {
    match t {
      case Simple(name, _) =>
        s := name;
      case Collection(ts, _) =>
        s := "[";
        for i := 0 to |ts|
          invariant s == "[" + ListText(ts[..i]) + (if 0 < i < |ts| then ", " else "")
        {
          assert ts[..i + 1][..i] == ts[..i];
          var child := Display(ts[i]);
          s := s + child;
          if i < |ts| - 1 {
            s := s + ", ";
          }
        }
        assert ts[..|ts|] == ts;
        s := s + "]";
      case SpreadOf(inner, _) =>
        var text := Display(inner);
        s := text + "...";
    }
  }

  // ---------------------------------------------------------------------
  // The node under a position, without the annotation context
  // ---------------------------------------------------------------------

  /**
   * `find_node_at`: the same descent as `find_symbol_at` (annotation before
   * value, first hit in member or element order, else the value itself), but
   * without tracking annotations. Its search inside an annotation is the same
   * function as the one in the position-query module.
   */
  function FindNodeAt(v: MonValue, p: nat): (r: Option<FoundNode>)
    ensures r.None? <==> !v.SourceSpan().Contains(p)
    decreases v
  {
    if !v.SourceSpan().Contains(p) then None
    else
      var inner := match v.kind
        case Object(ms) => NodeInPairs(ms, p)
        case Array(es) => NodeInElements(es, p)
        case _ => None;
      if inner.Some? then inner else Some(ValueNode(v))
  }

  function NodeInPairs(ms: seq<Member>, p: nat): Option<FoundNode>
    decreases ms
  {
    if ms == [] then None
    else
      var earlier := NodeInPairs(ms[..|ms| - 1], p);
      if earlier.Some? then earlier else NodeInPair(ms[|ms| - 1], p)
  }

  function NodeInPair(m: Member, p: nat): Option<FoundNode>
    decreases m
  {
    match m
    case PairMember(pair) =>
      var inSpec := match pair.validation
        case Some(t) => FindNodeInTypeSpec(t, p)
        case None => None;
      if inSpec.Some? then inSpec else FindNodeAt(pair.value, p)
    case _ => None
  }

  function NodeInElements(es: seq<MonValue>, p: nat): Option<FoundNode>
    decreases es
  {
    if es == [] then None
    else
      var earlier := NodeInElements(es[..|es| - 1], p);
      if earlier.Some? then earlier else FindNodeAt(es[|es| - 1], p)
  }

  /** The node of a symbol search. */
  function NodeOf(r: Option<SymbolInfo>): Option<FoundNode>
  {
    match r
    case Some(info) => Some(info.node)
    case None => None
  }

  /** `find_node_at` lands on the same node as `find_symbol_at`. */
  lemma {:induction false} FindNodeAtAgrees(v: MonValue, p: nat)
    ensures FindNodeAt(v, p) == NodeOf(FindSymbolAt(v, p))
    decreases v
  {
    if v.SourceSpan().Contains(p) {
      match v.kind {
        case Object(ms) => NodeInPairsAgrees(ms, p);
        case Array(es) => NodeInElementsAgrees(es, p);
        case _ =>
      }
    }
  }

  lemma {:induction false} NodeInPairsAgrees(ms: seq<Member>, p: nat)
    ensures NodeInPairs(ms, p) == NodeOf(FindInPairs(ms, p))
    decreases ms
  {
    if ms != [] {
      NodeInPairsAgrees(ms[..|ms| - 1], p);
      NodeInPairAgrees(ms[|ms| - 1], p);
    }
  }

  lemma {:induction false} NodeInPairAgrees(m: Member, p: nat)
    ensures NodeInPair(m, p) == NodeOf(FindInPair(m, p))
    decreases m
  {
    if m.PairMember? {
      FindNodeAtAgrees(m.pair.value, p);
    }
  }

  lemma {:induction false} NodeInElementsAgrees(es: seq<MonValue>, p: nat)
    ensures NodeInElements(es, p) == NodeOf(FindInElements(es, p))
    decreases es
  {
    if es != [] {
      NodeInElementsAgrees(es[..|es| - 1], p);
      FindNodeAtAgrees(es[|es| - 1], p);
    }
  }

  // ---------------------------------------------------------------------
  // Queries
  // ---------------------------------------------------------------------

  /**
   * `get_definition_at`: on an alias, the range of its anchor's recorded
   * value; on a simple annotation, the range of the named type's body;
   * nothing elsewhere or when the name is unknown.
   */
  function GetDefinitionAt(res: AnalysisResult, p: nat): (r: Option<Span>)
    ensures r.Some? ==> res.unresolvedDocument.root.SourceSpan().Contains(p)
    ensures r.Some? ==> (exists a | a in res.anchors :: r.value == res.anchors[a].SourceSpan())
                        || (exists n | n in res.types :: r.value == res.types[n].defType.GetSpan())
  {
    match FindNodeAt(res.unresolvedDocument.root, p)
    case None => None
    case Some(ValueNode(w)) =>
      if w.kind.Alias? && w.kind.name in res.anchors then Some(res.anchors[w.kind.name].SourceSpan()) else None
    case Some(SpecNode(t)) =>
      if t.Simple? && t.name in res.types then Some(res.types[t.name].defType.GetSpan()) else None
  }

  /**
   * `get_type_info_at`: the printed annotation of the innermost annotated
   * pair around the node, else the node's own description. A value is
   * described by `kindText`, the printed form of its kind.
   */
  function GetTypeInfoAt(res: AnalysisResult, p: nat, kindText: MonValueKind -> string): (r: Option<string>)
    ensures r.None? <==> !res.unresolvedDocument.root.SourceSpan().Contains(p)
  {
    match FindSymbolAt(res.unresolvedDocument.root, p)
    case None => None
    case Some(info) =>
      if info.validation.Some? then Some(TypeSpecText(info.validation.value))
      else match info.node
        case ValueNode(w) => Some(kindText(w.kind))
        case SpecNode(t) => Some(TypeSpecText(t))
  }

  /**
   * Hover inside the annotation of the first pair hit in an object the search
   * descends into along `path`: the innermost annotated pair passed on the
   * way, when there is one, else the printed innermost annotation under the
   * cursor.
   */
  lemma HoverOnAnnotation(res: AnalysisResult, p: nat, kindText: MonValueKind -> string, path: seq<nat>, i: nat)
    requires var d := Descend(res.unresolvedDocument.root, path, p);
             d.Some? && d.value.value.kind.Object? && i < |d.value.value.kind.members|
    requires var ms := Descend(res.unresolvedDocument.root, path, p).value.value.kind.members;
             AnnotationHit(ms[i], p) && forall j | 0 <= j < i :: !PairHit(ms[j], p)
    ensures var d := Descend(res.unresolvedDocument.root, path, p).value;
            var t := d.value.kind.members[i].pair.validation.value;
            GetTypeInfoAt(res, p, kindText) ==
              Some(TypeSpecText(if d.annotation.Some? then d.annotation.value else FindNodeInTypeSpec(t, p).value.spec))
  {
    var d := Descend(res.unresolvedDocument.root, path, p).value;
    FindSymbolAlong(res.unresolvedDocument.root, path, p);
    FindSymbolAtFirstHit(d.value, p, i);
  }

  /**
   * Hover on the value of an annotated pair of an object the search descends
   * into (the cursor outside the annotation and outside any member or element
   * of the value): the printed annotation of that pair, whatever encloses it.
   */
  lemma HoverOnAnnotatedValue(res: AnalysisResult, p: nat, kindText: MonValueKind -> string, path: seq<nat>, i: nat)
    requires var d := Descend(res.unresolvedDocument.root, path, p);
             d.Some? && d.value.value.kind.Object? && i < |d.value.value.kind.members|
    requires var ms := Descend(res.unresolvedDocument.root, path, p).value.value.kind.members;
             && ms[i].PairMember? && ms[i].pair.validation.Some? && !AnnotationHit(ms[i], p)
             && ms[i].pair.value.SourceSpan().Contains(p) && !ChildHit(ms[i].pair.value, p)
             && forall j | 0 <= j < i :: !PairHit(ms[j], p)
    ensures var d := Descend(res.unresolvedDocument.root, path, p).value;
            GetTypeInfoAt(res, p, kindText) == Some(TypeSpecText(d.value.kind.members[i].pair.validation.value))
  {
    var d := Descend(res.unresolvedDocument.root, path, p).value;
    FindSymbolAlong(res.unresolvedDocument.root, path, p);
    FindSymbolAtFirstHit(d.value, p, i);
  }

  /**
   * Hover on a value the search descends into, away from its members and
   * elements: the innermost annotation passed on the way, else the value's
   * own description.
   */
  lemma HoverOnValue(res: AnalysisResult, p: nat, kindText: MonValueKind -> string, path: seq<nat>)
    requires var d := Descend(res.unresolvedDocument.root, path, p);
             d.Some? && !ChildHit(d.value.value, p)
    ensures var d := Descend(res.unresolvedDocument.root, path, p).value;
            GetTypeInfoAt(res, p, kindText) ==
              Some(if d.annotation.Some? then TypeSpecText(d.annotation.value) else kindText(d.value.kind))
  {
    FindSymbolAlong(res.unresolvedDocument.root, path, p);
  }

  /**
   * What `find_references` looks for: the name of the alias or simple
   * annotation under the cursor and the span of its definition (the anchor's
   * recorded value, or the type definition's name).
   */
  function ReferenceTarget(res: AnalysisResult, p: nat): Option<(string, Span)>
  {
    match FindSymbolAt(res.unresolvedDocument.root, p)
    case None => None
    case Some(info) =>
      match info.node
      case ValueNode(w) =>
        if w.kind.Alias? && w.kind.name in res.anchors then Some((w.kind.name, res.anchors[w.kind.name].SourceSpan())) else None
      case SpecNode(t) =>
        if t.Simple? && t.name in res.types then Some((t.name, res.types[t.name].nameSpan)) else None
  }

  /** `spans` without `d`, in order. */
  function Without(spans: seq<Span>, d: Span): (r: seq<Span>)
    ensures |r| <= |spans|
    ensures forall s :: s in r <==> s in spans && s != d
  {
    if spans == [] then []
    else Without(spans[..|spans| - 1], d) + if spans[|spans| - 1] != d then [spans[|spans| - 1]] else []
  }

  /** `find_references`: every usage of the target's name in the parsed tree, except its definition. */
  method FindReferences(res: AnalysisResult, p: nat) returns (r: Option<seq<Span>>)
    ensures r.None? <==> ReferenceTarget(res, p).None?
    ensures r.Some? ==>
              var (name, definition) := ReferenceTarget(res, p).value;
              r.value == Without(UsageSpans(Nodes(res.unresolvedDocument.root), name), definition)
  {
    var target := ReferenceTarget(res, p);
    if target.None? {
      return None;
    }
    var (name, definition) := target.value;
    var usages := FindAllUsages(res.unresolvedDocument.root, name);
    r := Some(Without(usages, definition));
  }

  // ---------------------------------------------------------------------
  // Properties
  // ---------------------------------------------------------------------

  /**
   * A reference is exactly the span of a node in the parsed tree that uses
   * the name, other than the definition's span.
   */
  lemma ReferencesExact(res: AnalysisResult, p: nat, s: Span)
    requires ReferenceTarget(res, p).Some?
    ensures var (name, definition) := ReferenceTarget(res, p).value;
            var ns := Nodes(res.unresolvedDocument.root);
            s in Without(UsageSpans(ns, name), definition) <==>
              s != definition && exists i | 0 <= i < |ns| :: IsUsage(ns[i], name) && ns[i].NodeSpan() == s
  {
    var (name, definition) := ReferenceTarget(res, p).value;
    UsageSpansExact(Nodes(res.unresolvedDocument.root), name, s);
  }

  /** On an alias with a known anchor, "go to definition" and "find references" agree on the definition. */
  lemma AliasDefinitionAgrees(res: AnalysisResult, p: nat)
    requires ReferenceTarget(res, p).Some?
    requires FindNodeAt(res.unresolvedDocument.root, p).value.ValueNode?
    ensures GetDefinitionAt(res, p) == Some(ReferenceTarget(res, p).value.1)
  {
    FindNodeAtAgrees(res.unresolvedDocument.root, p);
  }

  /** On a simple annotation the two disagree: definition is the type's body, while references leave out its name. */
  lemma TypeDefinitionSpansDiffer(res: AnalysisResult, p: nat)
    requires ReferenceTarget(res, p).Some?
    requires FindNodeAt(res.unresolvedDocument.root, p).value.SpecNode?
    ensures var name := ReferenceTarget(res, p).value.0;
            && name in res.types
            && GetDefinitionAt(res, p) == Some(res.types[name].defType.GetSpan())
            && ReferenceTarget(res, p).value.1 == res.types[name].nameSpan
  {
    FindNodeAtAgrees(res.unresolvedDocument.root, p);
  }
}

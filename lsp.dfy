/**
 * Position queries and syntax colouring over a parsed (unresolved) document:
 * the node under a cursor, every usage of a name, and the semantic tokens of
 * a tree.
 *
 * A span `Span(start, end)` stands for the byte range `[start, end)`.
 */
module Lsp {
  import opened Common
  import opened Ast

  /** A node a query can land on: a value or a type annotation. */
  datatype FoundNode = ValueNode(value: MonValue) | SpecNode(spec: TypeSpec)
  {
    function NodeSpan(): Span
    {
      match this
      case ValueNode(v) => v.SourceSpan()
      case SpecNode(t) => t.GetSpan()
    }
  }

  /** A node under the cursor and the type annotation of the innermost annotated pair around it. */
  datatype SymbolInfo = SymbolInfo(node: FoundNode, validation: Option<TypeSpec>)

  // ---------------------------------------------------------------------
  // The nodes of a tree, in the order the searches visit them
  // ---------------------------------------------------------------------

  /**
   * Every value and every type annotation reachable through pair values,
   * pair annotations and array elements, in pre-order; an annotation comes
   * before the value it annotates. Spreads and type definitions are not
   * visited.
   */
  function Nodes(v: MonValue): seq<FoundNode>
    decreases v
  {
    [ValueNode(v)] + match v.kind
      case Object(ms) => MembersNodes(ms)
      case Array(es) => ElementsNodes(es)
      case _ => []
  }

  function MembersNodes(ms: seq<Member>): seq<FoundNode>
    decreases ms
  {
    if ms == [] then [] else MembersNodes(ms[..|ms| - 1]) + MemberNodes(ms[|ms| - 1])
  }

  function MemberNodes(m: Member): seq<FoundNode>
    decreases m
  {
    match m
    case PairMember(p) =>
      (match p.validation
       case Some(t) => SpecNodes(t)
       case None => []) + Nodes(p.value)
    case _ => []
  }

  function ElementsNodes(es: seq<MonValue>): seq<FoundNode>
    decreases es
  {
    if es == [] then [] else ElementsNodes(es[..|es| - 1]) + Nodes(es[|es| - 1])
  }

  /** A type annotation and every annotation nested in it, in pre-order. */
  function SpecNodes(t: TypeSpec): seq<FoundNode>
    decreases t
  {
    [SpecNode(t)] + match t
      case Simple(_, _) => []
      case Collection(ts, _) => SpecsNodes(ts)
      case SpreadOf(inner, _) => SpecNodes(inner)
  }

  function SpecsNodes(ts: seq<TypeSpec>): seq<FoundNode>
    decreases ts
  {
    if ts == [] then [] else SpecsNodes(ts[..|ts| - 1]) + SpecNodes(ts[|ts| - 1])
  }

  // ---------------------------------------------------------------------
  // The node under a position
  // ---------------------------------------------------------------------

  /**
   * `find_node_in_type_spec`: nothing outside the annotation's span; inside,
   * the first child of a collection that holds the position, else the
   * annotation itself. A spread's inner annotation is not searched.
   */
  function FindNodeInTypeSpec(t: TypeSpec, p: nat): (r: Option<FoundNode>)
    ensures r.None? <==> !t.GetSpan().Contains(p)
    ensures r.Some? ==> r.value.SpecNode? && r.value.NodeSpan().Contains(p) && r.value in SpecNodes(t)
    ensures t.GetSpan().Contains(p) && !t.Collection? ==> r == Some(SpecNode(t))
    ensures r.Some? ==> !SpecChildHit(r.value.spec, p)
    decreases t
  {
    if !t.GetSpan().Contains(p) then None
    else match t
      case Collection(ts, _) =>
        var inner := FindInSpecs(ts, p);
        if inner.Some? then inner else Some(SpecNode(t))
      case _ => Some(SpecNode(t))
  }

  /** The first of `ts` that holds the position, searched. */
  function FindInSpecs(ts: seq<TypeSpec>, p: nat): (r: Option<FoundNode>)
    ensures r.None? <==> forall i | 0 <= i < |ts| :: !ts[i].GetSpan().Contains(p)
    ensures r.Some? ==> r.value.SpecNode? && r.value.NodeSpan().Contains(p) && r.value in SpecsNodes(ts)
    ensures r.Some? ==> !SpecChildHit(r.value.spec, p)
    decreases ts
  {
    if ts == [] then None
    else
      var init := ts[..|ts| - 1];
      var earlier := FindInSpecs(init, p);
      assert forall i | 0 <= i < |init| :: init[i] == ts[i];
      if earlier.Some? then earlier
      else
        var last := FindNodeInTypeSpec(ts[|ts| - 1], p);
        assert last.Some? ==> !SpecChildHit(last.value.spec, p);
        last
  }

  /** Some child of a collection annotation holds the position. */
  predicate SpecChildHit(t: TypeSpec, p: nat)
  {
    t.Collection? && exists i | 0 <= i < |t.types| :: t.types[i].GetSpan().Contains(p)
  }

  /** Inside a collection annotation, the search lands in the first child that holds the position. */
  lemma FindNodeInTypeSpecFirstHit(t: TypeSpec, p: nat, i: nat)
    requires t.GetSpan().Contains(p) && t.Collection?
    requires i < |t.types| && t.types[i].GetSpan().Contains(p)
    requires forall j | 0 <= j < i :: !t.types[j].GetSpan().Contains(p)
    ensures FindNodeInTypeSpec(t, p) == FindNodeInTypeSpec(t.types[i], p)
  {
    FindInSpecsFirstHit(t.types, p, i);
  }

  lemma {:induction false} FindInSpecsFirstHit(ts: seq<TypeSpec>, p: nat, i: nat)
    requires i < |ts| && ts[i].GetSpan().Contains(p)
    requires forall j | 0 <= j < i :: !ts[j].GetSpan().Contains(p)
    ensures FindInSpecs(ts, p) == FindNodeInTypeSpec(ts[i], p)
    decreases |ts|
  {
    var init := ts[..|ts| - 1];
    assert forall j | 0 <= j < |init| :: init[j] == ts[j];
    if i < |ts| - 1 {
      FindInSpecsFirstHit(init, p, i);
      assert FindInSpecs(init, p) == FindNodeInTypeSpec(ts[i], p) && FindNodeInTypeSpec(ts[i], p).Some?;
    } else {
      assert FindInSpecs(init, p).None?;
    }
  }

  /** A pair is hit when its annotation or its value holds the position. */
  predicate PairHit(m: Member, p: nat)
  {
    m.PairMember? && ((m.pair.validation.Some? && m.pair.validation.value.GetSpan().Contains(p)) || m.pair.value.SourceSpan().Contains(p))
  }

  /** Some pair annotation, pair value or element of `v` holds the position. */
  predicate ChildHit(v: MonValue, p: nat)
  {
    match v.kind
    case Object(ms) => exists i | 0 <= i < |ms| :: PairHit(ms[i], p)
    case Array(es) => exists i | 0 <= i < |es| :: es[i].SourceSpan().Contains(p)
    case _ => false
  }

  /** The annotation of a pair holds the position. */
  predicate AnnotationHit(m: Member, p: nat)
  {
    m.PairMember? && m.pair.validation.Some? && m.pair.validation.value.GetSpan().Contains(p)
  }

  /** No child of the node holds the position: the search went as deep as it could. */
  predicate Deepest(n: FoundNode, p: nat)
  {
    match n
    case ValueNode(v) => !ChildHit(v, p)
    case SpecNode(t) => !SpecChildHit(t, p)
  }

  /**
   * `find_symbol_at`: nothing outside the value's range; inside, the hit in
   * the first pair or element that holds the position, else the value itself.
   * In a pair the annotation is searched before the value; a hit inside the
   * annotation carries no validation, and a hit inside the value that carries
   * none takes the pair's annotation.
   */
  function FindSymbolAt(v: MonValue, p: nat): (r: Option<SymbolInfo>)
    ensures r.None? <==> !v.SourceSpan().Contains(p)
    ensures r.Some? ==> r.value.node.NodeSpan().Contains(p) && r.value.node in Nodes(v)
    ensures r.Some? && r.value.validation.Some? ==> SpecNode(r.value.validation.value) in Nodes(v)
    ensures v.SourceSpan().Contains(p) && !ChildHit(v, p) ==> r == Some(SymbolInfo(ValueNode(v), None))
    ensures r.Some? ==> Deepest(r.value.node, p)
    decreases v
  {
    if !v.SourceSpan().Contains(p) then None
    else
      var inner := match v.kind
        case Object(ms) => FindInPairs(ms, p)
        case Array(es) => FindInElements(es, p)
        case _ => None;
      if inner.Some? then inner else Some(SymbolInfo(ValueNode(v), None))
  }

  /**
   * Inside an object, the search lands in the first pair that is hit; inside
   * an array, in the first element that holds the position.
   */
  lemma FindSymbolAtFirstHit(v: MonValue, p: nat, i: nat)
    requires v.SourceSpan().Contains(p)
    ensures (&& v.kind.Object? && i < |v.kind.members| && PairHit(v.kind.members[i], p)
             && (forall j | 0 <= j < i :: !PairHit(v.kind.members[j], p))) ==>
              FindSymbolAt(v, p) == FindInPair(v.kind.members[i], p)
    ensures (&& v.kind.Array? && i < |v.kind.elements| && v.kind.elements[i].SourceSpan().Contains(p)
             && (forall j | 0 <= j < i :: !v.kind.elements[j].SourceSpan().Contains(p))) ==>
              FindSymbolAt(v, p) == FindSymbolAt(v.kind.elements[i], p)
  {
    match v.kind
    case Object(ms) =>
      if i < |ms| && PairHit(ms[i], p) && (forall j | 0 <= j < i :: !PairHit(ms[j], p)) {
        FindInPairsFirstHit(ms, p, i);
      }
    case Array(es) =>
      if i < |es| && es[i].SourceSpan().Contains(p) && (forall j | 0 <= j < i :: !es[j].SourceSpan().Contains(p)) {
        FindInElementsFirstHit(es, p, i);
      }
    case _ =>
  }

  lemma {:induction false} FindInPairsFirstHit(ms: seq<Member>, p: nat, i: nat)
    requires i < |ms| && PairHit(ms[i], p)
    requires forall j | 0 <= j < i :: !PairHit(ms[j], p)
    ensures FindInPairs(ms, p) == FindInPair(ms[i], p)
    decreases |ms|
  {
    var init := ms[..|ms| - 1];
    assert forall j | 0 <= j < |init| :: init[j] == ms[j];
    if i < |ms| - 1 {
      FindInPairsFirstHit(init, p, i);
      assert FindInPairs(init, p) == FindInPair(ms[i], p) && FindInPair(ms[i], p).Some?;
    } else {
      assert FindInPairs(init, p).None?;
    }
  }

  lemma {:induction false} FindInElementsFirstHit(es: seq<MonValue>, p: nat, i: nat)
    requires i < |es| && es[i].SourceSpan().Contains(p)
    requires forall j | 0 <= j < i :: !es[j].SourceSpan().Contains(p)
    ensures FindInElements(es, p) == FindSymbolAt(es[i], p)
    decreases |es|
  {
    var init := es[..|es| - 1];
    assert forall j | 0 <= j < |init| :: init[j] == es[j];
    if i < |es| - 1 {
      FindInElementsFirstHit(init, p, i);
      assert FindInElements(init, p) == FindSymbolAt(es[i], p) && FindSymbolAt(es[i], p).Some?;
    } else {
      assert FindInElements(init, p).None?;
    }
  }

  /** A value the search descends into, and the annotation of the innermost annotated pair passed on the way. */
  datatype Reached = Reached(value: MonValue, annotation: Option<TypeSpec>)

  /**
   * Following `path` down from `v` the way the search at `p` goes: each index
   * picks the first pair hit (through its value, the annotation not hit) or
   * the first element holding the position. None when a step is not one the
   * search takes.
   */
  function Descend(v: MonValue, path: seq<nat>, p: nat): (r: Option<Reached>)
    ensures r.Some? ==> v.SourceSpan().Contains(p) && r.value.value.SourceSpan().Contains(p)
    decreases |path|
  {
    if !v.SourceSpan().Contains(p) then None
    else if path == [] then Some(Reached(v, None))
    else
      var i := path[0];
      match v.kind
      case Object(ms) =>
        if && i < |ms| && ms[i].PairMember? && !AnnotationHit(ms[i], p)
           && (forall j | 0 <= j < i :: !PairHit(ms[j], p))
        then
          match Descend(ms[i].pair.value, path[1..], p)
          case None => None
          case Some(d) => Some(Reached(d.value, if d.annotation.Some? then d.annotation else ms[i].pair.validation))
        else None
      case Array(es) =>
        if i < |es| && (forall j | 0 <= j < i :: !es[j].SourceSpan().Contains(p))
        then Descend(es[i], path[1..], p)
        else None
      case _ => None
  }

  /**
   * Along a descent, the search from the top lands on the node the search
   * from the value reached lands on; a hit without validation of its own
   * takes the innermost annotation passed on the way.
   */
  lemma {:induction false} FindSymbolAlong(v: MonValue, path: seq<nat>, p: nat)
    requires Descend(v, path, p).Some?
    ensures var d := Descend(v, path, p).value;
            var found := FindSymbolAt(d.value, p).value;
            FindSymbolAt(v, p) == Some(SymbolInfo(found.node, if found.validation.Some? then found.validation else d.annotation))
    decreases |path|
  {
    if path != [] {
      var i := path[0];
      match v.kind
      case Object(ms) =>
        FindSymbolAlong(ms[i].pair.value, path[1..], p);
        FindSymbolAtFirstHit(v, p, i);
      case Array(es) =>
        FindSymbolAlong(es[i], path[1..], p);
        FindSymbolAtFirstHit(v, p, i);
    }
  }

  /** The first pair of `ms` that is hit, searched annotation first. */
  function FindInPairs(ms: seq<Member>, p: nat): (r: Option<SymbolInfo>)
    ensures r.None? <==> forall i | 0 <= i < |ms| :: !PairHit(ms[i], p)
    ensures r.Some? ==> r.value.node.NodeSpan().Contains(p) && r.value.node in MembersNodes(ms)
    ensures r.Some? && r.value.validation.Some? ==> SpecNode(r.value.validation.value) in MembersNodes(ms)
    ensures r.Some? ==> Deepest(r.value.node, p)
    decreases ms
  {
    if ms == [] then None
    else
      var init := ms[..|ms| - 1];
      var earlier := FindInPairs(init, p);
      assert forall i | 0 <= i < |init| :: init[i] == ms[i];
      if earlier.Some? then earlier
      else
        var last := FindInPair(ms[|ms| - 1], p);
        assert last.Some? ==> Deepest(last.value.node, p);
        last
  }

  /** One member: a pair's annotation, then its value; other members hold nothing. */
  function FindInPair(m: Member, p: nat): (r: Option<SymbolInfo>)
    ensures r.None? <==> !PairHit(m, p)
    ensures r.Some? ==> r.value.node.NodeSpan().Contains(p) && r.value.node in MemberNodes(m)
    ensures r.Some? && r.value.validation.Some? ==> SpecNode(r.value.validation.value) in MemberNodes(m)
    ensures r.Some? ==> Deepest(r.value.node, p)
    ensures AnnotationHit(m, p) ==>
      r == Some(SymbolInfo(FindNodeInTypeSpec(m.pair.validation.value, p).value, None))
    ensures m.PairMember? && !AnnotationHit(m, p) && m.pair.value.SourceSpan().Contains(p) ==>
      var found := FindSymbolAt(m.pair.value, p).value;
      r == Some(SymbolInfo(found.node, if found.validation.Some? then found.validation else m.pair.validation))
    decreases m
  {
    match m
    case PairMember(pair) =>
      var inSpec := match pair.validation
        case Some(t) => FindNodeInTypeSpec(t, p)
        case None => None;
      if inSpec.Some? then
        assert SpecNode(pair.validation.value) in SpecNodes(pair.validation.value);
        Some(SymbolInfo(inSpec.value, None))
      else
        (match FindSymbolAt(pair.value, p)
         case Some(found) =>
           if found.validation.None? then
             if pair.validation.Some? then
               assert SpecNode(pair.validation.value) in SpecNodes(pair.validation.value);
               Some(SymbolInfo(found.node, pair.validation))
             else Some(SymbolInfo(found.node, None))
           else Some(found)
         case None => None)
    case _ => None
  }

  /** The first element of `es` that holds the position, searched. */
  function FindInElements(es: seq<MonValue>, p: nat): (r: Option<SymbolInfo>)
    ensures r.None? <==> forall i | 0 <= i < |es| :: !es[i].SourceSpan().Contains(p)
    ensures r.Some? ==> r.value.node.NodeSpan().Contains(p) && r.value.node in ElementsNodes(es)
    ensures r.Some? && r.value.validation.Some? ==> SpecNode(r.value.validation.value) in ElementsNodes(es)
    ensures r.Some? ==> Deepest(r.value.node, p)
    decreases es
  {
    if es == [] then None
    else
      var init := es[..|es| - 1];
      var earlier := FindInElements(init, p);
      assert forall i | 0 <= i < |init| :: init[i] == es[i];
      if earlier.Some? then earlier
      else
        var last := FindSymbolAt(es[|es| - 1], p);
        assert last.Some? ==> Deepest(last.value.node, p);
        last
  }

  // ---------------------------------------------------------------------
  // Usages of a name
  // ---------------------------------------------------------------------

  /** A node uses `name` when it is an alias to it or a simple type annotation naming it. */
  predicate IsUsage(n: FoundNode, name: string)
  {
    match n
    case ValueNode(v) => v.kind.Alias? && v.kind.name == name
    case SpecNode(t) => t.Simple? && t.name == name
  }

  /** The spans of the usages of `name` among `ns`, in order. */
  function UsageSpans(ns: seq<FoundNode>, name: string): seq<Span>
  {
    if ns == [] then []
    else
      var last := ns[|ns| - 1];
      UsageSpans(ns[..|ns| - 1], name) + if IsUsage(last, name) then [last.NodeSpan()] else []
  }

  lemma {:induction false} UsageSpansAppend(a: seq<FoundNode>, b: seq<FoundNode>, name: string)
    ensures UsageSpans(a + b, name) == UsageSpans(a, name) + UsageSpans(b, name)
    decreases |b|
  {
    if b == [] {
      assert a + b == a;
    } else {
      var init := b[..|b| - 1];
      assert (a + b)[..|a + b| - 1] == a + init;
      UsageSpansAppend(a, init, name);
    }
  }

  /** A span is reported exactly when some node using the name has it. */
  lemma {:induction false} UsageSpansExact(ns: seq<FoundNode>, name: string, s: Span)
    ensures s in UsageSpans(ns, name) <==> exists i | 0 <= i < |ns| :: IsUsage(ns[i], name) && ns[i].NodeSpan() == s
  {
    if ns != [] {
      var init := ns[..|ns| - 1];
      UsageSpansExact(init, name, s);
      assert forall i | 0 <= i < |init| :: init[i] == ns[i];
    }
  }

  /** `find_all_usages`: the usage spans of `name` in the tree, in visiting order. */
  method FindAllUsages(root: MonValue, name: string) returns (usages: seq<Span>)
    ensures usages == UsageSpans(Nodes(root), name)
  {
    usages := CollectUsages(root, name, []);
  }

  /** The usages in a value's nodes: its own, then those below it. */
  lemma UsagesSplit(v: MonValue, name: string, below: seq<FoundNode>, acc: seq<Span>, out: seq<Span>)
    requires Nodes(v) == [ValueNode(v)] + below
    requires out == acc + (if v.kind.Alias? && v.kind.name == name then [v.SourceSpan()] else []) + UsageSpans(below, name)
    ensures out == acc + UsageSpans(Nodes(v), name)
  {
    var here := [ValueNode(v)];
    assert here[..0] == [];
    UsageSpansAppend(here, below, name);
    ConcatAssoc(acc, UsageSpans(here, name), UsageSpans(below, name));
  }

  /** `find_all_usages_recursive`: append the usages found in `v` to `acc`. */
  method CollectUsages(v: MonValue, name: string, acc: seq<Span>) returns (out: seq<Span>)
    ensures out == acc + UsageSpans(Nodes(v), name)
    decreases v
  {
    match v.kind {
      case Alias(n) =>
        out := if n == name then acc + [v.SourceSpan()] else acc;
        UsagesSplit(v, name, [], acc, out);
      case Object(ms) =>
        out := CollectMembersUsages(ms, name, acc);
        UsagesSplit(v, name, MembersNodes(ms), acc, out);
      case Array(es) =>
        out := CollectElementsUsages(es, name, acc);
        UsagesSplit(v, name, ElementsNodes(es), acc, out);
      case _ =>
        out := acc;
        UsagesSplit(v, name, [], acc, out);
    }
  }

  lemma MembersUsagesStep(ms: seq<Member>, i: nat, name: string, acc: seq<Span>, before: seq<Span>, after: seq<Span>)
    requires i < |ms|
    requires before == acc + UsageSpans(MembersNodes(ms[..i]), name)
    requires after == before + UsageSpans(MemberNodes(ms[i]), name)
    ensures after == acc + UsageSpans(MembersNodes(ms[..i + 1]), name)
  {
    var x := UsageSpans(MembersNodes(ms[..i]), name);
    var y := UsageSpans(MemberNodes(ms[i]), name);
    assert ms[..i + 1][..i] == ms[..i];
    assert MembersNodes(ms[..i + 1]) == MembersNodes(ms[..i]) + MemberNodes(ms[i]);
    UsageSpansAppend(MembersNodes(ms[..i]), MemberNodes(ms[i]), name);
    ConcatAssoc(acc, x, y);
  }

  /** The object arm's loop over the members. */
  method CollectMembersUsages(ms: seq<Member>, name: string, acc: seq<Span>) returns (out: seq<Span>)
    ensures out == acc + UsageSpans(MembersNodes(ms), name)
    decreases ms
  {
    out := acc;
    for i := 0 to |ms|
      invariant out == acc + UsageSpans(MembersNodes(ms[..i]), name)
    {
      var next := CollectMemberUsages(ms[i], name, out);
      MembersUsagesStep(ms, i, name, acc, out, next);
      out := next;
    }
    assert ms[..|ms|] == ms;
  }

  lemma ElementsUsagesStep(es: seq<MonValue>, i: nat, name: string, acc: seq<Span>, before: seq<Span>, after: seq<Span>)
    requires i < |es|
    requires before == acc + UsageSpans(ElementsNodes(es[..i]), name)
    requires after == before + UsageSpans(Nodes(es[i]), name)
    ensures after == acc + UsageSpans(ElementsNodes(es[..i + 1]), name)
  {
    var x := UsageSpans(ElementsNodes(es[..i]), name);
    var y := UsageSpans(Nodes(es[i]), name);
    assert es[..i + 1][..i] == es[..i];
    assert ElementsNodes(es[..i + 1]) == ElementsNodes(es[..i]) + Nodes(es[i]);
    UsageSpansAppend(ElementsNodes(es[..i]), Nodes(es[i]), name);
    ConcatAssoc(acc, x, y);
  }

  /** The array arm's loop over the elements. */
  method CollectElementsUsages(es: seq<MonValue>, name: string, acc: seq<Span>) returns (out: seq<Span>)
    ensures out == acc + UsageSpans(ElementsNodes(es), name)
    decreases es
  {
    out := acc;
    for i := 0 to |es|
      invariant out == acc + UsageSpans(ElementsNodes(es[..i]), name)
    {
      var next := CollectUsages(es[i], name, out);
      ElementsUsagesStep(es, i, name, acc, out, next);
      out := next;
    }
    assert es[..|es|] == es;
  }

  /** One member of an object: a pair's annotation, then its value. */
  method CollectMemberUsages(m: Member, name: string, acc: seq<Span>) returns (out: seq<Span>)
    ensures out == acc + UsageSpans(MemberNodes(m), name)
    decreases m
  {
    out := acc;
    if m.PairMember? {
      var specNodes := if m.pair.validation.Some? then SpecNodes(m.pair.validation.value) else [];
      if m.pair.validation.Some? {
        out := CollectSpecUsages(m.pair.validation.value, name, out);
      } else {
        assert UsageSpans(specNodes, name) == [];
      }
      out := CollectUsages(m.pair.value, name, out);
      UsageSpansAppend(specNodes, Nodes(m.pair.value), name);
    }
  }

  /** The usages in an annotation's nodes: its own, then those below it. */
  lemma SpecUsagesSplit(t: TypeSpec, name: string, below: seq<FoundNode>, acc: seq<Span>, out: seq<Span>)
    requires SpecNodes(t) == [SpecNode(t)] + below
    requires out == acc + (if t.Simple? && t.name == name then [t.GetSpan()] else []) + UsageSpans(below, name)
    ensures out == acc + UsageSpans(SpecNodes(t), name)
  {
    var here := [SpecNode(t)];
    assert here[..0] == [];
    UsageSpansAppend(here, below, name);
    ConcatAssoc(acc, UsageSpans(here, name), UsageSpans(below, name));
  }

  /** `find_all_usages_in_type_spec`: append the usages found in an annotation to `acc`. */
  method CollectSpecUsages(t: TypeSpec, name: string, acc: seq<Span>) returns (out: seq<Span>)
    ensures out == acc + UsageSpans(SpecNodes(t), name)
    decreases t
  {
    match t {
      case Simple(n, span) =>
        out := if n == name then acc + [span] else acc;
        SpecUsagesSplit(t, name, [], acc, out);
      case Collection(ts, _) =>
        out := CollectSpecsUsages(ts, name, acc);
        SpecUsagesSplit(t, name, SpecsNodes(ts), acc, out);
      case SpreadOf(inner, _) =>
        out := CollectSpecUsages(inner, name, acc);
        SpecUsagesSplit(t, name, SpecNodes(inner), acc, out);
    }
  }

  lemma SpecsUsagesStep(ts: seq<TypeSpec>, i: nat, name: string, acc: seq<Span>, before: seq<Span>, after: seq<Span>)
    requires i < |ts|
    requires before == acc + UsageSpans(SpecsNodes(ts[..i]), name)
    requires after == before + UsageSpans(SpecNodes(ts[i]), name)
    ensures after == acc + UsageSpans(SpecsNodes(ts[..i + 1]), name)
  {
    var x := UsageSpans(SpecsNodes(ts[..i]), name);
    var y := UsageSpans(SpecNodes(ts[i]), name);
    assert ts[..i + 1][..i] == ts[..i];
    assert SpecsNodes(ts[..i + 1]) == SpecsNodes(ts[..i]) + SpecNodes(ts[i]);
    UsageSpansAppend(SpecsNodes(ts[..i]), SpecNodes(ts[i]), name);
    ConcatAssoc(acc, x, y);
  }

  /** The collection arm's loop over the children. */
  method CollectSpecsUsages(ts: seq<TypeSpec>, name: string, acc: seq<Span>) returns (out: seq<Span>)
    ensures out == acc + UsageSpans(SpecsNodes(ts), name)
    decreases ts
  {
    out := acc;
    for i := 0 to |ts|
      invariant out == acc + UsageSpans(SpecsNodes(ts[..i]), name)
    {
      var next := CollectSpecUsages(ts[i], name, out);
      SpecsUsagesStep(ts, i, name, acc, out, next);
      out := next;
    }
    assert ts[..|ts|] == ts;
  }

  // ---------------------------------------------------------------------
  // Semantic tokens
  // ---------------------------------------------------------------------

  datatype TokenType = Struct | Enum | Alias | Anchor | Type | Keyword | Comment | String | Number | Boolean | Null | Property

  datatype SemanticToken = SemanticToken(span: Span, tokenType: TokenType)

  /**
   * The span the source gives each enum variant's token. It converts the
   * pair (start, end) of the enum body, but that conversion reads its second
   * component as a length, so the token covers `end` bytes from `start`.
   */
  function EnumVariantSpanAsWritten(td: TypeDef): (r: Span)
    ensures r.start == td.posStart && r.end == td.posStart + td.posEnd
  {
    Span(td.posStart, td.posStart + td.posEnd)
  }

  /** An enum body at 10..20 gets variant tokens at 10..30, past the end of the enum. */
  lemma EnumVariantSpanOverruns()
    ensures var td := TypeDef.Enum(["A"], 10, 20);
            EnumVariantSpanAsWritten(td) == Span(10, 30) && EnumVariantSpanAsWritten(td).end > td.posEnd
  {
  }

  /** The span evidently intended for each variant's token: the enum body's own range. */
  function EnumVariantSpan(td: TypeDef): (r: Span)
    ensures r.start == td.posStart && r.end == td.posEnd
    ensures td.posStart > 0 ==> r != EnumVariantSpanAsWritten(td)
  {
    td.GetSpan()
  }

  /** The tokens of an annotation: one Type token per simple annotation in it. */
  function SpecTokens(t: TypeSpec): seq<SemanticToken>
    decreases t
  {
    match t
    case Simple(_, span) => [SemanticToken(span, Type)]
    case Collection(ts, _) => SpecsTokens(ts)
    case SpreadOf(inner, _) => SpecTokens(inner)
  }

  function SpecsTokens(ts: seq<TypeSpec>): seq<SemanticToken>
    decreases ts
  {
    if ts == [] then [] else SpecsTokens(ts[..|ts| - 1]) + SpecTokens(ts[|ts| - 1])
  }

  /** The token for a value's own kind, if its kind has one. */
  function KindToken(v: MonValue): seq<SemanticToken>
  {
    match v.kind
    case Alias(_) => [SemanticToken(v.SourceSpan(), TokenType.Alias)]
    case String(_) => [SemanticToken(v.SourceSpan(), TokenType.String)]
    case Number(_) => [SemanticToken(v.SourceSpan(), TokenType.Number)]
    case Boolean(_) => [SemanticToken(v.SourceSpan(), TokenType.Boolean)]
    case Null => [SemanticToken(v.SourceSpan(), TokenType.Null)]
    case _ => []
  }

  /** The anchor token of a value: present only when its anchor name is in the table. */
  function AnchorToken(v: MonValue, anchors: map<string, MonValue>): seq<SemanticToken>
  {
    if v.anchor.Some? && v.anchor.value in anchors then [SemanticToken(anchors[v.anchor.value].SourceSpan(), Anchor)] else []
  }

  /**
   * The tokens of a value: an object's members, an array's elements or the
   * value's own kind token, then its anchor token. `pairSpan` is the span the
   * source gives a pair's token.
   */
  function TokensOf(v: MonValue, anchors: map<string, MonValue>, pairSpan: Pair -> Span): seq<SemanticToken>
    decreases v
  {
    (match v.kind
     case Object(ms) => MembersTokens(ms, anchors, pairSpan)
     case Array(es) => ElementsTokens(es, anchors, pairSpan)
     case _ => KindToken(v)) + AnchorToken(v, anchors)
  }

  function MembersTokens(ms: seq<Member>, anchors: map<string, MonValue>, pairSpan: Pair -> Span): seq<SemanticToken>
    decreases ms
  {
    if ms == [] then [] else MembersTokens(ms[..|ms| - 1], anchors, pairSpan) + MemberTokens(ms[|ms| - 1], anchors, pairSpan)
  }

  /**
   * A pair gives a Property token, its annotation's tokens and its value's;
   * a type definition gives a Struct or Enum token at its name, then a
   * Property token per field or variant; a spread gives nothing.
   */
  function MemberTokens(m: Member, anchors: map<string, MonValue>, pairSpan: Pair -> Span): seq<SemanticToken>
    decreases m
  {
    match m
    case PairMember(p) =>
      [SemanticToken(pairSpan(p), Property)] + ValidationTokens(p.validation) + TokensOf(p.value, anchors, pairSpan)
    case TypeDefMember(d) =>
      [SemanticToken(d.nameSpan, if d.defType.Struct? then TokenType.Struct else TokenType.Enum)] + DefTokens(d.defType)
    case SpreadMember(_) => []
  }

  /** The tokens of a pair's annotation, if it has one. */
  function ValidationTokens(validation: Option<TypeSpec>): seq<SemanticToken>
  {
    match validation
    case Some(t) => SpecTokens(t)
    case None => []
  }

  function DefTokens(td: TypeDef): seq<SemanticToken>
  {
    match td
    case Struct(fields, _, _) => FieldsTokens(fields)
    case Enum(variants, _, _) => seq(|variants|, _ => SemanticToken(EnumVariantSpan(td), Property))
  }

  /** Per field, a Property token at its annotation, then the annotation's tokens. */
  function FieldsTokens(fs: seq<FieldDef>): seq<SemanticToken>
  {
    if fs == [] then []
    else
      var f := fs[|fs| - 1];
      FieldsTokens(fs[..|fs| - 1]) + [SemanticToken(f.typeSpec.GetSpan(), Property)] + SpecTokens(f.typeSpec)
  }

  function ElementsTokens(es: seq<MonValue>, anchors: map<string, MonValue>, pairSpan: Pair -> Span): seq<SemanticToken>
    decreases es
  {
    if es == [] then [] else ElementsTokens(es[..|es| - 1], anchors, pairSpan) + TokensOf(es[|es| - 1], anchors, pairSpan)
  }

  /** `generate_semantic_tokens`: the tokens of the tree, in the order the source pushes them. */
  method GenerateSemanticTokens(root: MonValue, anchors: map<string, MonValue>, pairSpan: Pair -> Span)
    returns (tokens: seq<SemanticToken>)
    ensures tokens == TokensOf(root, anchors, pairSpan)
  {
    tokens := TokensInto(root, anchors, pairSpan, []);
  }

  /** `generate_semantic_tokens_recursive`: append the tokens of `v` to `acc`. */
  method TokensInto(v: MonValue, anchors: map<string, MonValue>, pairSpan: Pair -> Span, acc: seq<SemanticToken>)
    returns (out: seq<SemanticToken>)
    ensures out == acc + TokensOf(v, anchors, pairSpan)
    decreases v
  {
    match v.kind {
      case Object(ms) =>
        out := MembersTokensInto(ms, anchors, pairSpan, acc);
      case Array(es) =>
        out := ElementsTokensInto(es, anchors, pairSpan, acc);
      case Alias(_) =>
        out := acc + [SemanticToken(v.SourceSpan(), TokenType.Alias)];
      case String(_) =>
        out := acc + [SemanticToken(v.SourceSpan(), TokenType.String)];
      case Number(_) =>
        out := acc + [SemanticToken(v.SourceSpan(), TokenType.Number)];
      case Boolean(_) =>
        out := acc + [SemanticToken(v.SourceSpan(), TokenType.Boolean)];
      case Null =>
        out := acc + [SemanticToken(v.SourceSpan(), TokenType.Null)];
      case _ =>
        out := acc;
    }
    ghost var kindTokens := out[|acc|..];
    assert out == acc + kindTokens;
    if v.anchor.Some? && v.anchor.value in anchors {
      out := out + [SemanticToken(anchors[v.anchor.value].SourceSpan(), Anchor)];
    }
  }

  lemma MembersTokensStep(ms: seq<Member>, i: nat, anchors: map<string, MonValue>, pairSpan: Pair -> Span,
                           acc: seq<SemanticToken>, before: seq<SemanticToken>, after: seq<SemanticToken>)
    requires i < |ms|
    requires before == acc + MembersTokens(ms[..i], anchors, pairSpan)
    requires after == before + MemberTokens(ms[i], anchors, pairSpan)
    ensures after == acc + MembersTokens(ms[..i + 1], anchors, pairSpan)
  {
    assert ms[..i + 1][..i] == ms[..i];
    ConcatAssoc(acc, MembersTokens(ms[..i], anchors, pairSpan), MemberTokens(ms[i], anchors, pairSpan));
  }

  /** The object arm's loop over the members. */
  method MembersTokensInto(ms: seq<Member>, anchors: map<string, MonValue>, pairSpan: Pair -> Span, acc: seq<SemanticToken>)
    returns (out: seq<SemanticToken>)
    ensures out == acc + MembersTokens(ms, anchors, pairSpan)
    decreases ms
  {
    out := acc;
    for i := 0 to |ms|
      invariant out == acc + MembersTokens(ms[..i], anchors, pairSpan)
    {
      var next := MemberTokensInto(ms[i], anchors, pairSpan, out);
      MembersTokensStep(ms, i, anchors, pairSpan, acc, out, next);
      out := next;
    }
    assert ms[..|ms|] == ms;
  }

  /** One member of an object. */
  method MemberTokensInto(m: Member, anchors: map<string, MonValue>, pairSpan: Pair -> Span, acc: seq<SemanticToken>)
    returns (out: seq<SemanticToken>)
    ensures out == acc + MemberTokens(m, anchors, pairSpan)
    decreases m
  {
    match m {
      case PairMember(p) =>
        out := acc + [SemanticToken(pairSpan(p), Property)];
        if p.validation.Some? {
          out := SpecTokensInto(p.validation.value, out);
        }
        ghost var annotated := out;
        assert annotated == acc + [SemanticToken(pairSpan(p), Property)] + ValidationTokens(p.validation);
        out := TokensInto(p.value, anchors, pairSpan, out);
        assert out == annotated + TokensOf(p.value, anchors, pairSpan);
      case TypeDefMember(d) =>
        out := acc + [SemanticToken(d.nameSpan, if d.defType.Struct? then TokenType.Struct else TokenType.Enum)];
        out := DefTokensInto(d.defType, out);
      case SpreadMember(_) =>
        out := acc;
    }
  }

  /** The fields of a struct or the variants of an enum. */
  method DefTokensInto(td: TypeDef, acc: seq<SemanticToken>) returns (out: seq<SemanticToken>)
    ensures out == acc + DefTokens(td)
  {
    out := acc;
    match td {
      case Struct(fields, _, _) =>
        for i := 0 to |fields|
          invariant out == acc + FieldsTokens(fields[..i])
        {
          assert fields[..i + 1][..i] == fields[..i];
          out := out + [SemanticToken(fields[i].typeSpec.GetSpan(), Property)];
          out := SpecTokensInto(fields[i].typeSpec, out);
        }
        assert fields[..|fields|] == fields;
      case Enum(variants, _, _) =>
        var span := EnumVariantSpan(td);
        for i := 0 to |variants|
          invariant out == acc + seq(i, _ => SemanticToken(span, Property))
        {
          out := out + [SemanticToken(span, Property)];
        }
    }
  }

  lemma ElementsTokensStep(es: seq<MonValue>, i: nat, anchors: map<string, MonValue>, pairSpan: Pair -> Span,
                            acc: seq<SemanticToken>, before: seq<SemanticToken>, after: seq<SemanticToken>)
    requires i < |es|
    requires before == acc + ElementsTokens(es[..i], anchors, pairSpan)
    requires after == before + TokensOf(es[i], anchors, pairSpan)
    ensures after == acc + ElementsTokens(es[..i + 1], anchors, pairSpan)
  {
    assert es[..i + 1][..i] == es[..i];
    ConcatAssoc(acc, ElementsTokens(es[..i], anchors, pairSpan), TokensOf(es[i], anchors, pairSpan));
  }

  /** The array arm's loop over the elements. */
  method ElementsTokensInto(es: seq<MonValue>, anchors: map<string, MonValue>, pairSpan: Pair -> Span, acc: seq<SemanticToken>)
    returns (out: seq<SemanticToken>)
    ensures out == acc + ElementsTokens(es, anchors, pairSpan)
    decreases es
  {
    out := acc;
    for i := 0 to |es|
      invariant out == acc + ElementsTokens(es[..i], anchors, pairSpan)
    {
      var next := TokensInto(es[i], anchors, pairSpan, out);
      ElementsTokensStep(es, i, anchors, pairSpan, acc, out, next);
      out := next;
    }
    assert es[..|es|] == es;
  }

  /** `generate_semantic_tokens_for_type_spec`: append an annotation's tokens to `acc`. */
  method SpecTokensInto(t: TypeSpec, acc: seq<SemanticToken>) returns (out: seq<SemanticToken>)
    ensures out == acc + SpecTokens(t)
    decreases t
  {
    match t {
      case Simple(_, span) =>
        out := acc + [SemanticToken(span, Type)];
      case Collection(ts, _) =>
        out := acc;
        for i := 0 to |ts|
          invariant out == acc + SpecsTokens(ts[..i])
        {
          assert ts[..i + 1][..i] == ts[..i];
          out := SpecTokensInto(ts[i], out);
        }
        assert ts[..|ts|] == ts;
      case SpreadOf(inner, _) =>
        out := SpecTokensInto(inner, acc);
    }
  }

  // ---------------------------------------------------------------------
  // What the tokens count
  // ---------------------------------------------------------------------

  /** The number of tokens of type `tt`. */
  function Count(ts: seq<SemanticToken>, tt: TokenType): nat
  {
    if ts == [] then 0 else Count(ts[..|ts| - 1], tt) + if ts[|ts| - 1].tokenType == tt then 1 else 0
  }

  lemma {:induction false} CountAppend(a: seq<SemanticToken>, b: seq<SemanticToken>, tt: TokenType)
    ensures Count(a + b, tt) == Count(a, tt) + Count(b, tt)
    decreases |b|
  {
    if b == [] {
      assert a + b == a;
    } else {
      assert (a + b)[..|a + b| - 1] == a + b[..|b| - 1];
      CountAppend(a, b[..|b| - 1], tt);
    }
  }

  lemma {:induction false} CountRepeated(n: nat, t: SemanticToken, tt: TokenType)
    ensures Count(seq(n, _ => t), tt) == if t.tokenType == tt then n else 0
  {
    if n > 0 {
      assert seq(n, _ => t)[..n - 1] == seq(n - 1, _ => t);
      CountRepeated(n - 1, t, tt);
    }
  }

  /** The pairs, struct fields and enum variants reachable through pair values and array elements. */
  function PropertyCount(v: MonValue): nat
    decreases v
  {
    match v.kind
    case Object(ms) => MembersPropertyCount(ms)
    case Array(es) => ElementsPropertyCount(es)
    case _ => 0
  }

  function MembersPropertyCount(ms: seq<Member>): nat
    decreases ms
  {
    if ms == [] then 0 else MembersPropertyCount(ms[..|ms| - 1]) + MemberPropertyCount(ms[|ms| - 1])
  }

  function MemberPropertyCount(m: Member): nat
    decreases m
  {
    match m
    case PairMember(p) => 1 + PropertyCount(p.value)
    case TypeDefMember(d) => if d.defType.Struct? then |d.defType.fields| else |d.defType.variants|
    case SpreadMember(_) => 0
  }

  function ElementsPropertyCount(es: seq<MonValue>): nat
    decreases es
  {
    if es == [] then 0 else ElementsPropertyCount(es[..|es| - 1]) + PropertyCount(es[|es| - 1])
  }

  /** The values among `ns` whose anchor name is in the table. */
  function AnchoredCount(ns: seq<FoundNode>, anchors: map<string, MonValue>): nat
  {
    if ns == [] then 0
    else
      var n := ns[|ns| - 1];
      AnchoredCount(ns[..|ns| - 1], anchors) + if n.ValueNode? && n.value.anchor.Some? && n.value.anchor.value in anchors then 1 else 0
  }

  lemma {:induction false} AnchoredCountAppend(a: seq<FoundNode>, b: seq<FoundNode>, anchors: map<string, MonValue>)
    ensures AnchoredCount(a + b, anchors) == AnchoredCount(a, anchors) + AnchoredCount(b, anchors)
    decreases |b|
  {
    if b == [] {
      assert a + b == a;
    } else {
      assert (a + b)[..|a + b| - 1] == a + b[..|b| - 1];
      AnchoredCountAppend(a, b[..|b| - 1], anchors);
    }
  }

  /** Annotations give only Type tokens and hold no values. */
  lemma {:induction false} SpecTokenCounts(t: TypeSpec, anchors: map<string, MonValue>)
    ensures Count(SpecTokens(t), Property) == 0 && Count(SpecTokens(t), Anchor) == 0
    ensures AnchoredCount(SpecNodes(t), anchors) == 0
    decreases t
  {
    var here := [SpecNode(t)];
    assert AnchoredCount(here, anchors) == 0 by {
      assert here[..0] == [];
    }
    match t {
      case Simple(_, span) =>
        assert [SemanticToken(span, Type)][..0] == [];
      case Collection(ts, _) =>
        SpecsTokenCounts(ts, anchors);
        AnchoredCountAppend(here, SpecsNodes(ts), anchors);
      case SpreadOf(inner, _) =>
        SpecTokenCounts(inner, anchors);
        AnchoredCountAppend(here, SpecNodes(inner), anchors);
    }
  }

  lemma {:induction false} SpecsTokenCounts(ts: seq<TypeSpec>, anchors: map<string, MonValue>)
    ensures Count(SpecsTokens(ts), Property) == 0 && Count(SpecsTokens(ts), Anchor) == 0
    ensures AnchoredCount(SpecsNodes(ts), anchors) == 0
    decreases ts
  {
    if ts != [] {
      var init := ts[..|ts| - 1];
      SpecsTokenCounts(init, anchors);
      SpecTokenCounts(ts[|ts| - 1], anchors);
      CountAppend(SpecsTokens(init), SpecTokens(ts[|ts| - 1]), Property);
      CountAppend(SpecsTokens(init), SpecTokens(ts[|ts| - 1]), Anchor);
      AnchoredCountAppend(SpecsNodes(init), SpecNodes(ts[|ts| - 1]), anchors);
    }
  }

  /** One Property token per struct field, and no anchors. */
  lemma {:induction false} FieldsTokenCounts(fs: seq<FieldDef>, anchors: map<string, MonValue>)
    ensures Count(FieldsTokens(fs), Property) == |fs| && Count(FieldsTokens(fs), Anchor) == 0
  {
    if fs != [] {
      var f := fs[|fs| - 1];
      var key := [SemanticToken(f.typeSpec.GetSpan(), Property)];
      assert key[..0] == [];
      FieldsTokenCounts(fs[..|fs| - 1], anchors);
      SpecTokenCounts(f.typeSpec, anchors);
      CountAppend(FieldsTokens(fs[..|fs| - 1]), key, Property);
      CountAppend(FieldsTokens(fs[..|fs| - 1]), key, Anchor);
      CountAppend(FieldsTokens(fs[..|fs| - 1]) + key, SpecTokens(f.typeSpec), Property);
      CountAppend(FieldsTokens(fs[..|fs| - 1]) + key, SpecTokens(f.typeSpec), Anchor);
    }
  }

  /** A value's own kind and anchor tokens: no Property token, and an Anchor token exactly when its anchor name is known. */
  lemma OwnTokenCounts(v: MonValue, anchors: map<string, MonValue>)
    ensures Count(AnchorToken(v, anchors), Property) == 0
    ensures Count(AnchorToken(v, anchors), Anchor) == AnchoredCount([ValueNode(v)], anchors)
    ensures Count(KindToken(v), Property) == 0 && Count(KindToken(v), Anchor) == 0
  {
    var here := [ValueNode(v)];
    assert here[..0] == [];
    var anchor := AnchorToken(v, anchors);
    assert anchor == [] || anchor[..0] == [];
    assert KindToken(v) == [] || KindToken(v)[..0] == [];
  }

  /** The counts of a value's tokens from the counts of the tokens below it. */
  lemma ValueTokenCounts(v: MonValue, anchors: map<string, MonValue>, pairSpan: Pair -> Span, inner: seq<SemanticToken>, below: seq<FoundNode>)
    requires TokensOf(v, anchors, pairSpan) == inner + AnchorToken(v, anchors)
    requires Nodes(v) == [ValueNode(v)] + below
    requires Count(inner, Property) == PropertyCount(v)
    requires Count(inner, Anchor) == AnchoredCount(below, anchors)
    ensures Count(TokensOf(v, anchors, pairSpan), Property) == PropertyCount(v)
    ensures Count(TokensOf(v, anchors, pairSpan), Anchor) == AnchoredCount(Nodes(v), anchors)
  {
    OwnTokenCounts(v, anchors);
    CountAppend(inner, AnchorToken(v, anchors), Property);
    CountAppend(inner, AnchorToken(v, anchors), Anchor);
    AnchoredCountAppend([ValueNode(v)], below, anchors);
  }

  /**
   * `generate_semantic_tokens` emits one Property token per pair, struct field
   * and enum variant, and one Anchor token per visited value whose anchor name
   * is in the table.
   */
  lemma {:induction false} TokenCounts(v: MonValue, anchors: map<string, MonValue>, pairSpan: Pair -> Span)
    ensures Count(TokensOf(v, anchors, pairSpan), Property) == PropertyCount(v)
    ensures Count(TokensOf(v, anchors, pairSpan), Anchor) == AnchoredCount(Nodes(v), anchors)
    decreases v
  {
    match v.kind {
      case Object(ms) =>
        MembersTokenCounts(ms, anchors, pairSpan);
        ValueTokenCounts(v, anchors, pairSpan, MembersTokens(ms, anchors, pairSpan), MembersNodes(ms));
      case Array(es) =>
        ElementsTokenCounts(es, anchors, pairSpan);
        ValueTokenCounts(v, anchors, pairSpan, ElementsTokens(es, anchors, pairSpan), ElementsNodes(es));
      case _ =>
        OwnTokenCounts(v, anchors);
        assert AnchoredCount([], anchors) == 0;
        ValueTokenCounts(v, anchors, pairSpan, KindToken(v), []);
    }
  }

  lemma {:induction false} MembersTokenCounts(ms: seq<Member>, anchors: map<string, MonValue>, pairSpan: Pair -> Span)
    ensures Count(MembersTokens(ms, anchors, pairSpan), Property) == MembersPropertyCount(ms)
    ensures Count(MembersTokens(ms, anchors, pairSpan), Anchor) == AnchoredCount(MembersNodes(ms), anchors)
    decreases ms
  {
    if ms != [] {
      var init := ms[..|ms| - 1];
      var last := ms[|ms| - 1];
      MembersTokenCounts(init, anchors, pairSpan);
      MemberTokenCounts(last, anchors, pairSpan);
      CountAppend(MembersTokens(init, anchors, pairSpan), MemberTokens(last, anchors, pairSpan), Property);
      CountAppend(MembersTokens(init, anchors, pairSpan), MemberTokens(last, anchors, pairSpan), Anchor);
      AnchoredCountAppend(MembersNodes(init), MemberNodes(last), anchors);
    }
  }

  lemma {:induction false} MemberTokenCounts(m: Member, anchors: map<string, MonValue>, pairSpan: Pair -> Span)
    ensures Count(MemberTokens(m, anchors, pairSpan), Property) == MemberPropertyCount(m)
    ensures Count(MemberTokens(m, anchors, pairSpan), Anchor) == AnchoredCount(MemberNodes(m), anchors)
    decreases m, 1
  {
    match m {
      case PairMember(p) =>
        PairTokenCounts(p, anchors, pairSpan);
      case TypeDefMember(d) =>
        var head := [SemanticToken(d.nameSpan, if d.defType.Struct? then TokenType.Struct else TokenType.Enum)];
        assert head[..0] == [];
        CountAppend(head, DefTokens(d.defType), Property);
        CountAppend(head, DefTokens(d.defType), Anchor);
        match d.defType {
          case Struct(fields, _, _) =>
            FieldsTokenCounts(fields, anchors);
          case Enum(variants, _, _) =>
            CountRepeated(|variants|, SemanticToken(EnumVariantSpan(d.defType), Property), Property);
            CountRepeated(|variants|, SemanticToken(EnumVariantSpan(d.defType), Property), Anchor);
        }
      case SpreadMember(_) =>
    }
  }

  lemma {:induction false} PairTokenCounts(p: Pair, anchors: map<string, MonValue>, pairSpan: Pair -> Span)
    ensures Count(MemberTokens(PairMember(p), anchors, pairSpan), Property) == MemberPropertyCount(PairMember(p))
    ensures Count(MemberTokens(PairMember(p), anchors, pairSpan), Anchor) == AnchoredCount(MemberNodes(PairMember(p)), anchors)
    decreases PairMember(p), 0
  {
    var key := [SemanticToken(pairSpan(p), Property)];
    assert key[..0] == [];
    var specTokens := if p.validation.Some? then SpecTokens(p.validation.value) else [];
    var specNodes := if p.validation.Some? then SpecNodes(p.validation.value) else [];
    if p.validation.Some? {
      SpecTokenCounts(p.validation.value, anchors);
    }
    TokenCounts(p.value, anchors, pairSpan);
    var valueTokens := TokensOf(p.value, anchors, pairSpan);
    assert MemberTokens(PairMember(p), anchors, pairSpan) == key + specTokens + valueTokens;
    assert MemberNodes(PairMember(p)) == specNodes + Nodes(p.value);
    CountAppend(key, specTokens, Property);
    CountAppend(key, specTokens, Anchor);
    CountAppend(key + specTokens, valueTokens, Property);
    CountAppend(key + specTokens, valueTokens, Anchor);
    AnchoredCountAppend(specNodes, Nodes(p.value), anchors);
  }

  lemma {:induction false} ElementsTokenCounts(es: seq<MonValue>, anchors: map<string, MonValue>, pairSpan: Pair -> Span)
    ensures Count(ElementsTokens(es, anchors, pairSpan), Property) == ElementsPropertyCount(es)
    ensures Count(ElementsTokens(es, anchors, pairSpan), Anchor) == AnchoredCount(ElementsNodes(es), anchors)
    decreases es
  {
    if es != [] {
      var init := es[..|es| - 1];
      var last := es[|es| - 1];
      ElementsTokenCounts(init, anchors, pairSpan);
      TokenCounts(last, anchors, pairSpan);
      assert ElementsTokens(es, anchors, pairSpan) == ElementsTokens(init, anchors, pairSpan) + TokensOf(last, anchors, pairSpan);
      assert ElementsNodes(es) == ElementsNodes(init) + Nodes(last);
      CountAppend(ElementsTokens(init, anchors, pairSpan), TokensOf(last, anchors, pairSpan), Property);
      CountAppend(ElementsTokens(init, anchors, pairSpan), TokensOf(last, anchors, pairSpan), Anchor);
      AnchoredCountAppend(ElementsNodes(init), Nodes(last), anchors);
    }
  }
}

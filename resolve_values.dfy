/**
 * Alias and spread expansion, the first half of the resolver's work on a
 * document. Expansion only reads the anchor table, so it is written here as a
 * family of functions over a fixed `Anchors` map.
 *
 * An anchor holds the raw, unresolved value recorded for it. Expanding a
 * spread resolves the anchor's contents again, which need not terminate
 * (`{ &b: { x: { ...*b } } }` expands forever). Every spread expansion
 * therefore spends one unit of `fuel`; running out is reported as OutOfFuel.
 */
module ResolveValues {
  import opened Common
  import opened Ast
  import opened Errors

  /** Anchor name to the raw value of the pair that declared it. */
  type Anchors = map<string, MonValue>

  // ---------------------------------------------------------------------
  // Expansion
  // ---------------------------------------------------------------------

  /** True for the kinds the resolver hands back untouched. */
  predicate IsLiteral(k: MonValueKind)
  {
    !k.Alias? && !k.Object? && !k.Array?
  }

  /**
   * `resolve_value`: an alias becomes a copy of its anchor's raw value; an
   * object has its spreads expanded and its members merged by key; an array
   * has its spreads spliced in; anything else is returned as it is.
   */
  function ResolveValue(anchors: Anchors, v: MonValue, fuel: nat): (r: Result<MonValue, ResolverError>)
    ensures IsLiteral(v.kind) ==> r == Ok(v)
    ensures v.kind.Alias? ==>
              r == if v.kind.name in anchors then Ok(anchors[v.kind.name])
                   else Err(AnchorNotFound(v.kind.name, v.SourceSpan()))
    ensures r.Ok? && !v.kind.Alias? ==>
              && r.value.anchor == v.anchor
              && r.value.posStart == v.posStart && r.value.posEnd == v.posEnd
              && (v.kind.Object? <==> r.value.kind.Object?)
              && (v.kind.Array? <==> r.value.kind.Array?)
    decreases fuel, ValueSize(v), 0
  {
    match v.kind
    case Alias(name) =>
      if name in anchors then Ok(anchors[name]) else Err(AnchorNotFound(name, v.SourceSpan()))
    case Object(ms) =>
      var resolved :- ResolveMembers(anchors, ms, v.SourceSpan(), fuel);
      Ok(MonValue(Object(Merge(resolved)), v.anchor, v.posStart, v.posEnd))
    case Array(es) =>
      var resolved :- ResolveElements(anchors, es, v.SourceSpan(), fuel);
      Ok(MonValue(Array(resolved), v.anchor, v.posStart, v.posEnd))
    case _ => Ok(v)
  }

  /**
   * The members of an object in order, each spread replaced by its anchor's
   * members. `span` is the object's own range, which every spread error reports.
   */
  function ResolveMembers(anchors: Anchors, ms: seq<Member>, span: Span, fuel: nat): (r: Result<seq<Member>, ResolverError>)
    decreases fuel, MembersSize(ms), 2
  {
    if ms == [] then Ok([])
    else
      var head :- ResolveMember(anchors, ms[0], span, fuel);
      var rest :- ResolveMembers(anchors, ms[1..], span, fuel);
      Ok(head + rest)
  }

  /** One member of an object: a spread gives its anchor's members, anything else one member. */
  function ResolveMember(anchors: Anchors, m: Member, span: Span, fuel: nat): (r: Result<seq<Member>, ResolverError>)
    decreases fuel, MemberSize(m), 1
  {
    match m
    case SpreadMember(name) =>
      if name !in anchors then Err(AnchorNotFound(name, span))
      else if !anchors[name].kind.Object? then Err(SpreadOnNonObject(name, span))
      else if fuel == 0 then Err(OutOfFuel)
      else ResolveMemberList(anchors, anchors[name].kind.members, fuel - 1)
    case _ =>
      var one :- ResolveValueMember(anchors, m, fuel);
      Ok([one])
  }

  /** The members of a spread anchor, each through `ResolveValueMember`: nested spreads are kept. */
  function ResolveMemberList(anchors: Anchors, ms: seq<Member>, fuel: nat): (r: Result<seq<Member>, ResolverError>)
    ensures r.Ok? ==> |r.value| == |ms|
    decreases fuel, MembersSize(ms), 2
  {
    if ms == [] then Ok([])
    else
      var head :- ResolveValueMember(anchors, ms[0], fuel);
      var rest :- ResolveMemberList(anchors, ms[1..], fuel);
      Ok([head] + rest)
  }

  /** `resolve_value_member`: a pair has its value resolved; any other member is returned as it is. */
  function ResolveValueMember(anchors: Anchors, m: Member, fuel: nat): (r: Result<Member, ResolverError>)
    ensures !m.PairMember? ==> r == Ok(m)
    ensures r.Ok? && m.PairMember? ==>
              && r.value.PairMember?
              && r.value.pair.key == m.pair.key
              && r.value.pair.validation == m.pair.validation
    decreases fuel, MemberSize(m), 0
  {
    match m
    case PairMember(p) =>
      var value :- ResolveValue(anchors, p.value, fuel);
      Ok(PairMember(p.(value := value)))
    case _ => Ok(m)
  }

  /** The elements of an array in order, each spread marker replaced by its anchor's elements. */
  function ResolveElements(anchors: Anchors, es: seq<MonValue>, span: Span, fuel: nat): (r: Result<seq<MonValue>, ResolverError>)
    decreases fuel, ElementsSize(es), 2
  {
    if es == [] then Ok([])
    else
      var head :- ResolveElement(anchors, es[0], span, fuel);
      var rest :- ResolveElements(anchors, es[1..], span, fuel);
      Ok(head + rest)
  }

  /** One element: a spread marker gives its anchor's elements, anything else one value. */
  function ResolveElement(anchors: Anchors, e: MonValue, span: Span, fuel: nat): (r: Result<seq<MonValue>, ResolverError>)
    ensures !e.kind.ArraySpread? && r.Ok? ==> |r.value| == 1
    decreases fuel, ValueSize(e), 1
  {
    match e.kind
    case ArraySpread(name) =>
      if name !in anchors then Err(AnchorNotFound(name, span))
      else if !anchors[name].kind.Array? then Err(SpreadOnNonArray(name, span))
      else if fuel == 0 then Err(OutOfFuel)
      else ResolveValueList(anchors, anchors[name].kind.elements, fuel - 1)
    case _ =>
      var one :- ResolveValue(anchors, e, fuel);
      Ok([one])
  }

  /** The elements of a spread anchor, each through `ResolveValue`: nested spread markers are kept. */
  function ResolveValueList(anchors: Anchors, es: seq<MonValue>, fuel: nat): (r: Result<seq<MonValue>, ResolverError>)
    ensures r.Ok? ==> |r.value| == |es|
    decreases fuel, ElementsSize(es), 2
  {
    if es == [] then Ok([])
    else
      var head :- ResolveValue(anchors, es[0], fuel);
      var rest :- ResolveValueList(anchors, es[1..], fuel);
      Ok([head] + rest)
  }

  // ---------------------------------------------------------------------
  // Merging object members by key
  // ---------------------------------------------------------------------

  /**
   * The key a member is merged under: a pair by its key, anything else by
   * itself (the source uses the member's debug text).
   */
  datatype MergeKey = PairKey(key: string) | OtherKey(member: Member)

  function KeyOf(m: Member): MergeKey
  {
    if m.PairMember? then PairKey(m.pair.key) else OtherKey(m)
  }

  function Keys(ms: seq<Member>): set<MergeKey>
  {
    set m | m in ms :: KeyOf(m)
  }

  /** No two members share a key. */
  predicate UniqueKeys(ms: seq<Member>)
  {
    forall i, j :: 0 <= i < j < |ms| ==> KeyOf(ms[i]) != KeyOf(ms[j])
  }

  /** The last member of `ms` with key `k`. */
  function LastWithKey(ms: seq<Member>, k: MergeKey): (m: Member)
    requires k in Keys(ms)
    ensures m in ms && KeyOf(m) == k
  {
    var last := ms[|ms| - 1];
    if KeyOf(last) == k then last
    else
      assert forall x | x in ms && x != last :: x in ms[..|ms| - 1] by {
        assert ms == ms[..|ms| - 1] + [last];
      }
      LastWithKey(ms[..|ms| - 1], k)
  }

  /** Map insertion: replace the member with the same key, or add at the end. */
  function Insert(acc: seq<Member>, m: Member): seq<Member>
  {
    if acc == [] then [m]
    else if KeyOf(acc[0]) == KeyOf(m) then [m] + acc[1..]
    else [acc[0]] + Insert(acc[1..], m)
  }

  /**
   * The source inserts the resolved members into a hash map one by one and
   * returns the map's values. Here the entries stay in the order their keys
   * were first seen; the source promises no order at all.
   */
  function Merge(ms: seq<Member>): seq<Member>
  {
    if ms == [] then [] else Insert(Merge(ms[..|ms| - 1]), ms[|ms| - 1])
  }

  lemma {:induction false} InsertSpec(acc: seq<Member>, m: Member)
    requires UniqueKeys(acc)
    ensures UniqueKeys(Insert(acc, m))
    ensures Keys(Insert(acc, m)) == Keys(acc) + {KeyOf(m)}
    ensures forall x | x in Insert(acc, m) :: x == m || (x in acc && KeyOf(x) != KeyOf(m))
    decreases |acc|
  {
    if acc == [] {
    } else if KeyOf(acc[0]) == KeyOf(m) {
      InsertReplacesHead(acc, m);
    } else {
      var tail := acc[1..];
      InsertSpec(tail, m);
      InsertKeepsHead(acc, m);
    }
  }

  /** Inserting under the key of the first member replaces that member. */
  lemma InsertReplacesHead(acc: seq<Member>, m: Member)
    requires UniqueKeys(acc) && acc != [] && KeyOf(acc[0]) == KeyOf(m)
    ensures UniqueKeys(Insert(acc, m))
    ensures Keys(Insert(acc, m)) == Keys(acc) + {KeyOf(m)}
    ensures forall x | x in Insert(acc, m) :: x == m || (x in acc && KeyOf(x) != KeyOf(m))
  {
    var r := [m] + acc[1..];
    assert acc == [acc[0]] + acc[1..];
    forall x | x in acc[1..] ensures KeyOf(x) != KeyOf(m) {
      var j :| 0 <= j < |acc[1..]| && acc[1..][j] == x;
      assert acc[j + 1] == x;
    }
    assert Keys(acc) == {KeyOf(acc[0])} + Keys(acc[1..]);
    assert Keys(r) == {KeyOf(m)} + Keys(acc[1..]);
  }

  /** Inserting under another key keeps the first member in front of the insertion into the rest. */
  lemma InsertKeepsHead(acc: seq<Member>, m: Member)
    requires UniqueKeys(acc) && acc != [] && KeyOf(acc[0]) != KeyOf(m)
    requires var t := Insert(acc[1..], m);
             UniqueKeys(t) && Keys(t) == Keys(acc[1..]) + {KeyOf(m)}
             && forall x | x in t :: x == m || (x in acc[1..] && KeyOf(x) != KeyOf(m))
    ensures UniqueKeys(Insert(acc, m))
    ensures Keys(Insert(acc, m)) == Keys(acc) + {KeyOf(m)}
    ensures forall x | x in Insert(acc, m) :: x == m || (x in acc && KeyOf(x) != KeyOf(m))
  {
    var tail := acc[1..];
    var t := Insert(tail, m);
    var r := [acc[0]] + t;
    assert acc == [acc[0]] + tail;
    forall x | x in tail ensures KeyOf(x) != KeyOf(acc[0]) {
      var j :| 0 <= j < |tail| && tail[j] == x;
      assert acc[j + 1] == x;
    }
    assert KeyOf(acc[0]) !in Keys(t);
    UniqueCons(acc[0], t);
    assert Keys(acc) == {KeyOf(acc[0])} + Keys(tail);
    assert Keys(r) == {KeyOf(acc[0])} + Keys(t);
  }

  /** A member whose key the rest lacks keeps the keys unique when put in front. */
  lemma UniqueCons(h: Member, t: seq<Member>)
    requires UniqueKeys(t) && KeyOf(h) !in Keys(t)
    ensures UniqueKeys([h] + t)
  {
    var r := [h] + t;
    forall i, j | 0 <= i < j < |r| ensures KeyOf(r[i]) != KeyOf(r[j]) {
      assert r[j] == t[j - 1];
      if i > 0 {
        assert r[i] == t[i - 1];
      }
    }
  }

  /**
   * After merging, each key occurs once, the keys are those of the input, and
   * each key holds the last member with that key: a later pair overrides an
   * earlier one, so local keys written after a spread win over its keys.
   */
  lemma {:induction false} MergeSpec(ms: seq<Member>)
    ensures UniqueKeys(Merge(ms))
    ensures Keys(Merge(ms)) == Keys(ms)
    ensures forall x | x in Merge(ms) :: KeyOf(x) in Keys(ms) && x == LastWithKey(ms, KeyOf(x))
    decreases |ms|
  {
    if ms != [] {
      var init := ms[..|ms| - 1];
      var last := ms[|ms| - 1];
      assert ms == init + [last];
      MergeSpec(init);
      InsertSpec(Merge(init), last);
      assert Keys(ms) == Keys(init) + {KeyOf(last)};
      forall x | x in Merge(ms) ensures KeyOf(x) in Keys(ms) && x == LastWithKey(ms, KeyOf(x)) {
        if x != last {
          assert KeyOf(x) != KeyOf(last);
        }
      }
    }
  }

  /** The merged members are exactly one per key, the last one written for it. */
  lemma MergeLastWins(ms: seq<Member>, k: MergeKey)
    requires k in Keys(ms)
    ensures exists x :: x in Merge(ms) && KeyOf(x) == k
    ensures forall x | x in Merge(ms) && KeyOf(x) == k :: x == LastWithKey(ms, k)
  {
    MergeSpec(ms);
    assert k in Keys(Merge(ms));
  }

  // ---------------------------------------------------------------------
  // Splicing
  // ---------------------------------------------------------------------

  /** Resolving a concatenation of elements resolves each part in turn, reporting the first error. */
  lemma {:induction false} ResolveElementsAppend(anchors: Anchors, xs: seq<MonValue>, ys: seq<MonValue>, span: Span, fuel: nat)
    ensures ResolveElements(anchors, xs + ys, span, fuel) ==
            match ResolveElements(anchors, xs, span, fuel)
            case Err(e) => Err(e)
            case Ok(a) =>
              match ResolveElements(anchors, ys, span, fuel)
              case Err(e) => Err(e)
              case Ok(b) => Ok(a + b)
    decreases |xs|
  {
    if xs == [] {
      assert xs + ys == ys;
      if ResolveElements(anchors, ys, span, fuel).Ok? {
        assert [] + ResolveElements(anchors, ys, span, fuel).value == ResolveElements(anchors, ys, span, fuel).value;
      }
    } else {
      assert (xs + ys)[0] == xs[0];
      assert (xs + ys)[1..] == xs[1..] + ys;
      ResolveElementsAppend(anchors, xs[1..], ys, span, fuel);
      var h := ResolveElement(anchors, xs[0], span, fuel);
      if h.Ok? && ResolveElements(anchors, xs[1..], span, fuel).Ok? && ResolveElements(anchors, ys, span, fuel).Ok? {
        var a := ResolveElements(anchors, xs[1..], span, fuel).value;
        var b := ResolveElements(anchors, ys, span, fuel).value;
        assert h.value + (a + b) == (h.value + a) + b;
      }
    }
  }

  /**
   * `[before..., ...*name, after...]`: the marker is replaced in place by the
   * anchor's elements, each resolved, between the resolved elements before
   * and after it.
   */
  lemma ArraySpreadSplices(anchors: Anchors, before: seq<MonValue>, marker: MonValue, after: seq<MonValue>, span: Span, fuel: nat)
    requires marker.kind.ArraySpread? && marker.kind.spreadName in anchors
    requires anchors[marker.kind.spreadName].kind.Array? && fuel > 0
    requires ResolveElements(anchors, before + [marker] + after, span, fuel).Ok?
    ensures ResolveElements(anchors, before, span, fuel).Ok?
    ensures ResolveValueList(anchors, anchors[marker.kind.spreadName].kind.elements, fuel - 1).Ok?
    ensures ResolveElements(anchors, after, span, fuel).Ok?
    ensures ResolveElements(anchors, before + [marker] + after, span, fuel).value ==
            ResolveElements(anchors, before, span, fuel).value
            + ResolveValueList(anchors, anchors[marker.kind.spreadName].kind.elements, fuel - 1).value
            + ResolveElements(anchors, after, span, fuel).value
  {
    ResolveElementsAppend(anchors, before + [marker], after, span, fuel);
    ResolveElementsAppend(anchors, before, [marker], span, fuel);
    var spliced := ResolveValueList(anchors, anchors[marker.kind.spreadName].kind.elements, fuel - 1);
    assert [marker][1..] == [];
    if spliced.Ok? {
      assert spliced.value + [] == spliced.value;
      assert ResolveElements(anchors, [marker], span, fuel) == Ok(spliced.value);
    }
  }

  /** Without spread markers, resolving an array keeps its length. */
  lemma {:induction false} ElementsWithoutSpreadKeepLength(anchors: Anchors, es: seq<MonValue>, span: Span, fuel: nat)
    requires forall i | 0 <= i < |es| :: !es[i].kind.ArraySpread?
    requires ResolveElements(anchors, es, span, fuel).Ok?
    ensures |ResolveElements(anchors, es, span, fuel).value| == |es|
    decreases |es|
  {
    if es != [] {
      ElementsWithoutSpreadKeepLength(anchors, es[1..], span, fuel);
    }
  }

  /** Resolving a concatenation of members resolves each part in turn, reporting the first error. */
  lemma {:induction false} ResolveMembersAppend(anchors: Anchors, xs: seq<Member>, ys: seq<Member>, span: Span, fuel: nat)
    ensures ResolveMembers(anchors, xs + ys, span, fuel) ==
            match ResolveMembers(anchors, xs, span, fuel)
            case Err(e) => Err(e)
            case Ok(a) =>
              match ResolveMembers(anchors, ys, span, fuel)
              case Err(e) => Err(e)
              case Ok(b) => Ok(a + b)
    decreases |xs|
  {
    if xs == [] {
      assert xs + ys == ys;
      if ResolveMembers(anchors, ys, span, fuel).Ok? {
        assert [] + ResolveMembers(anchors, ys, span, fuel).value == ResolveMembers(anchors, ys, span, fuel).value;
      }
    } else {
      assert (xs + ys)[0] == xs[0];
      assert (xs + ys)[1..] == xs[1..] + ys;
      ResolveMembersAppend(anchors, xs[1..], ys, span, fuel);
      var h := ResolveMember(anchors, xs[0], span, fuel);
      if h.Ok? && ResolveMembers(anchors, xs[1..], span, fuel).Ok? && ResolveMembers(anchors, ys, span, fuel).Ok? {
        var a := ResolveMembers(anchors, xs[1..], span, fuel).value;
        var b := ResolveMembers(anchors, ys, span, fuel).value;
        assert h.value + (a + b) == (h.value + a) + b;
      }
    }
  }

  /**
   * `{ ...*name, local... }`: when a local pair follows the spread, the
   * resolved object holds that key exactly once, with the last local value
   * written for it, whatever the anchor declared under the same key.
   */
  lemma LocalKeyAfterSpreadWins(anchors: Anchors, v: MonValue, spread: Member, local: seq<Member>, fuel: nat, key: string)
    requires v.kind == Object([spread] + local) && spread.SpreadMember?
    requires ResolveValue(anchors, v, fuel).Ok? && ResolveMembers(anchors, local, v.SourceSpan(), fuel).Ok?
    requires PairKey(key) in Keys(ResolveMembers(anchors, local, v.SourceSpan(), fuel).value)
    ensures var localResolved := ResolveMembers(anchors, local, v.SourceSpan(), fuel).value;
            var merged := ResolveValue(anchors, v, fuel).value.kind.members;
            && (exists x :: x in merged && KeyOf(x) == PairKey(key))
            && forall x | x in merged && KeyOf(x) == PairKey(key) :: x == LastWithKey(localResolved, PairKey(key))
  {
    var span := v.SourceSpan();
    ResolveMembersAppend(anchors, [spread], local, span, fuel);
    var all := ResolveMembers(anchors, [spread] + local, span, fuel).value;
    var head := ResolveMembers(anchors, [spread], span, fuel).value;
    var localResolved := ResolveMembers(anchors, local, span, fuel).value;
    assert all == head + localResolved;
    LastWithKeyInSuffix(head, localResolved, PairKey(key));
    MergeLastWins(all, PairKey(key));
  }

  /** The last member with a key that the suffix holds comes from the suffix. */
  lemma {:induction false} LastWithKeyInSuffix(xs: seq<Member>, ys: seq<Member>, k: MergeKey)
    requires k in Keys(ys)
    ensures k in Keys(xs + ys) && LastWithKey(xs + ys, k) == LastWithKey(ys, k)
    decreases |ys|
  {
    var zs := xs + ys;
    var last := ys[|ys| - 1];
    assert zs[|zs| - 1] == last;
    assert last in zs;
    if KeyOf(last) != k {
      var init := ys[..|ys| - 1];
      assert ys == init + [last];
      assert k in Keys(init);
      assert zs[..|zs| - 1] == xs + init;
      LastWithKeyInSuffix(xs, init, k);
    }
  }
}

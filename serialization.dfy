/**
 * Conversion of a resolved document's tree into plain data. Only pairs are
 * data: spreads and type definitions inside an object are dropped, and the
 * nodes resolution should have removed (aliases, spreads, enum values) become
 * Null. An object becomes an ordered map, whose entries are kept here as a
 * sequence sorted by key, so the key order of the output is fixed.
 */
module Serialization {
  import opened Common
  import A = Ast

  /** Plain data. A number keeps the lexeme it was written with. */
  datatype Value =
    | String(s: string)
    | Number(lexeme: string)
    | Boolean(b: bool)
    | Null
    | Array(items: seq<Value>)
    | Object(entries: seq<Entry>)

  datatype Entry = Entry(key: string, value: Value)

  // ---------------------------------------------------------------------
  // The key order of an ordered map: strings compared character by character
  // ---------------------------------------------------------------------

  /** `a` sorts strictly before `b`. */
  predicate Below(a: string, b: string)
  {
    if a == [] then b != []
    else if b == [] then false
    else if a[0] != b[0] then a[0] < b[0]
    else Below(a[1..], b[1..])
  }

  lemma {:induction false} BelowIrreflexive(a: string)
    ensures !Below(a, a)
  {
    if a != [] {
      BelowIrreflexive(a[1..]);
    }
  }

  lemma {:induction false} BelowTransitive(a: string, b: string, c: string)
    requires Below(a, b) && Below(b, c)
    ensures Below(a, c)
  {
    if a != [] && a[0] == b[0] && b[0] == c[0] {
      BelowTransitive(a[1..], b[1..], c[1..]);
    }
  }

  lemma {:induction false} BelowTotal(a: string, b: string)
    requires a != b
    ensures Below(a, b) || Below(b, a)
  {
    if a != [] && b != [] && a[0] == b[0] {
      assert a == [a[0]] + a[1..] && b == [b[0]] + b[1..];
      BelowTotal(a[1..], b[1..]);
    }
  }

  /** The keys of the entries. */
  function EntryKeys(es: seq<Entry>): set<string>
  {
    if es == [] then {} else {es[0].key} + EntryKeys(es[1..])
  }

  /** Each entry's key sorts strictly before every key after it (so no key occurs twice). */
  predicate Sorted(es: seq<Entry>)
  {
    es == [] || ((forall k | k in EntryKeys(es[1..]) :: Below(es[0].key, k)) && Sorted(es[1..]))
  }

  /** The value stored under `k`. */
  function Lookup(es: seq<Entry>, k: string): (r: Option<Value>)
    ensures r.Some? <==> k in EntryKeys(es)
  {
    if es == [] then None
    else if es[0].key == k then Some(es[0].value)
    else Lookup(es[1..], k)
  }

  /** The map's insert: the entry for `k` is replaced, or added in key order. */
  function InsertEntry(es: seq<Entry>, k: string, v: Value): seq<Entry>
  {
    if es == [] then [Entry(k, v)]
    else if es[0].key == k then [Entry(k, v)] + es[1..]
    else if Below(k, es[0].key) then [Entry(k, v)] + es
    else [es[0]] + InsertEntry(es[1..], k, v)
  }

  /** Inserting stores `v` under `k`, adds `k` to the keys and leaves every other key alone. */
  lemma {:induction false} InsertEntryStores(es: seq<Entry>, k: string, v: Value)
    ensures var r := InsertEntry(es, k, v);
            && EntryKeys(r) == EntryKeys(es) + {k}
            && Lookup(r, k) == Some(v)
            && forall k' | k' != k :: Lookup(r, k') == Lookup(es, k')
  {
    var r := InsertEntry(es, k, v);
    if es != [] {
      if es[0].key == k || Below(k, es[0].key) {
        assert r[1..] == if es[0].key == k then es[1..] else es;
      } else {
        InsertEntryStores(es[1..], k, v);
        assert r[1..] == InsertEntry(es[1..], k, v);
      }
    }
  }

  /** Inserting into sorted entries keeps them sorted. */
  lemma {:induction false} InsertEntrySorted(es: seq<Entry>, k: string, v: Value)
    requires Sorted(es)
    ensures Sorted(InsertEntry(es, k, v))
  {
    var r := InsertEntry(es, k, v);
    if es == [] {
    } else if es[0].key == k {
      assert r[1..] == es[1..];
    } else if Below(k, es[0].key) {
      assert r[1..] == es;
      forall x | x in EntryKeys(es)
        ensures Below(k, x)
      {
        if x != es[0].key {
          BelowTransitive(k, es[0].key, x);
        }
      }
    } else {
      BelowTotal(k, es[0].key);
      InsertEntrySorted(es[1..], k, v);
      InsertEntryStores(es[1..], k, v);
      assert r[1..] == InsertEntry(es[1..], k, v);
    }
  }

  lemma {:induction false} KeyAtIndex(es: seq<Entry>, j: nat)
    requires j < |es|
    ensures es[j].key in EntryKeys(es)
  {
    if j > 0 {
      KeyAtIndex(es[1..], j - 1);
    }
  }

  /** Sorted entries have strictly increasing keys, position by position. */
  lemma {:induction false} SortedIncreasing(es: seq<Entry>)
    requires Sorted(es)
    ensures forall i, j | 0 <= i < j < |es| :: Below(es[i].key, es[j].key)
  {
    if es != [] {
      SortedIncreasing(es[1..]);
      forall i, j | 0 <= i < j < |es|
        ensures Below(es[i].key, es[j].key)
      {
        KeyAtIndex(es[1..], j - 1);
        if i > 0 {
          assert es[i] == es[1..][i - 1];
        }
      }
    }
  }

  // ---------------------------------------------------------------------
  // The conversion
  // ---------------------------------------------------------------------

  /** `to_value`. */
  function ToValue(v: A.MonValue): Value
    decreases A.ValueSize(v), 0
  {
    match v.kind
    case String(s) => String(s)
    case Number(n) => Number(n)
    case Boolean(b) => Boolean(b)
    case Array(es) => Array(ToValues(es))
    case Object(ms) => Object(PairEntries([], ms))
    case _ => Null
  }

  /** The elements converted one by one. */
  function ToValues(es: seq<A.MonValue>): (r: seq<Value>)
    ensures |r| == |es|
    decreases A.ElementsSize(es), 1
  {
    if es == [] then [] else [ToValue(es[0])] + ToValues(es[1..])
  }

  /** The object arm's loop: each pair's converted value is inserted under its key; other members are skipped. */
  function PairEntries(acc: seq<Entry>, ms: seq<A.Member>): seq<Entry>
    decreases A.MembersSize(ms), 1
  {
    if ms == [] then acc
    else
      assert A.MembersSize(ms) == A.MemberSize(ms[0]) + A.MembersSize(ms[1..]);
      var next := if ms[0].PairMember? then InsertEntry(acc, ms[0].pair.key, ToValue(ms[0].pair.value)) else acc;
      PairEntries(next, ms[1..])
  }

  // ---------------------------------------------------------------------
  // What an object becomes
  // ---------------------------------------------------------------------

  /** The keys of the pairs among `ms`. */
  function PairKeys(ms: seq<A.Member>): set<string>
  {
    if ms == [] then {}
    else (if ms[0].PairMember? then {ms[0].pair.key} else {}) + PairKeys(ms[1..])
  }

  /** The value of the last pair among `ms` with key `k`: a later one's if there is one, else the first member's. */
  function LastPairValue(ms: seq<A.Member>, k: string): A.MonValue
    requires k in PairKeys(ms)
  {
    if k in PairKeys(ms[1..]) then LastPairValue(ms[1..], k) else ms[0].pair.value
  }

  /** The last pair with key `k` is one of the members, and no later member is a pair with that key. */
  lemma {:induction false} LastPairValueIsLast(ms: seq<A.Member>, k: string)
    requires k in PairKeys(ms)
    ensures exists i | 0 <= i < |ms| :: ms[i].PairMember? && ms[i].pair.key == k && ms[i].pair.value == LastPairValue(ms, k)
                                      && forall j | i < j < |ms| :: !A.IsPairWithKey(ms[j], k)
  {
    var tail := ms[1..];
    if k in PairKeys(tail) {
      LastPairValueIsLast(tail, k);
      var i :| 0 <= i < |tail| && tail[i].PairMember? && tail[i].pair.key == k && tail[i].pair.value == LastPairValue(tail, k)
                                && forall j | i < j < |tail| :: !A.IsPairWithKey(tail[j], k);
      assert ms[i + 1] == tail[i];
      assert forall j | i + 1 < j < |ms| :: ms[j] == tail[j - 1];
    } else {
      forall j | 0 < j < |ms|
        ensures !A.IsPairWithKey(ms[j], k)
      {
        if A.IsPairWithKey(ms[j], k) {
          assert tail[j - 1] == ms[j];
          PairKeyAtIndex(tail, j - 1);
        }
      }
    }
  }

  lemma {:induction false} PairKeyAtIndex(ms: seq<A.Member>, j: nat)
    requires j < |ms| && ms[j].PairMember?
    ensures ms[j].pair.key in PairKeys(ms)
  {
    if j > 0 {
      PairKeyAtIndex(ms[1..], j - 1);
    }
  }

  /**
   * The object loop, from any sorted accumulator: the result is sorted, has
   * the accumulator's keys and the pairs' keys, and under each pair key holds
   * the conversion of the last pair with that key.
   */
  lemma {:induction false} PairEntriesSpec(acc: seq<Entry>, ms: seq<A.Member>)
    requires Sorted(acc)
    ensures var r := PairEntries(acc, ms);
            && Sorted(r)
            && EntryKeys(r) == EntryKeys(acc) + PairKeys(ms)
            && forall k :: Lookup(r, k) == if k in PairKeys(ms) then Some(ToValue(LastPairValue(ms, k))) else Lookup(acc, k)
    decreases |ms|
  {
    if ms == [] {
    } else {
      var m := ms[0];
      var rest := ms[1..];
      var next := if m.PairMember? then InsertEntry(acc, m.pair.key, ToValue(m.pair.value)) else acc;
      if m.PairMember? {
        InsertEntryStores(acc, m.pair.key, ToValue(m.pair.value));
        InsertEntrySorted(acc, m.pair.key, ToValue(m.pair.value));
      }
      PairEntriesSpec(next, rest);
    }
  }

  // ---------------------------------------------------------------------
  // Properties
  // ---------------------------------------------------------------------

  /** Scalars map to the variant of the same name, unchanged; everything resolution removes becomes Null. */
  lemma ScalarsAndLeftovers(v: A.MonValue)
    ensures v.kind.String? ==> ToValue(v) == String(v.kind.text)
    ensures v.kind.Number? ==> ToValue(v) == Number(v.kind.lexeme)
    ensures v.kind.Boolean? ==> ToValue(v) == Boolean(v.kind.b)
    ensures v.kind.Null? || v.kind.Alias? || v.kind.EnumValue? || v.kind.ArraySpread? ==> ToValue(v) == Null
    ensures ToValue(v).Null? ==> v.kind.Null? || v.kind.Alias? || v.kind.EnumValue? || v.kind.ArraySpread?
  {
  }

  /** The elements are converted position by position. */
  lemma {:induction false} ToValuesElementwise(es: seq<A.MonValue>)
    ensures forall i | 0 <= i < |es| :: ToValues(es)[i] == ToValue(es[i])
  {
    if es != [] {
      ToValuesElementwise(es[1..]);
      assert forall i | 0 < i < |es| :: es[1..][i - 1] == es[i];
    }
  }

  /** An array keeps its length and order, each element converted. */
  lemma ArrayElementwise(v: A.MonValue)
    requires v.kind.Array?
    ensures ToValue(v).Array? && |ToValue(v).items| == |v.kind.elements|
    ensures forall i | 0 <= i < |v.kind.elements| :: ToValue(v).items[i] == ToValue(v.kind.elements[i])
  {
    ToValuesElementwise(v.kind.elements);
  }

  /**
   * An object becomes entries sorted by key, one per distinct pair key and no
   * other, each holding the conversion of the last pair with that key.
   */
  lemma ObjectKeepsLastPairs(v: A.MonValue)
    requires v.kind.Object?
    ensures var r := ToValue(v);
            && r.Object?
            && Sorted(r.entries)
            && EntryKeys(r.entries) == PairKeys(v.kind.members)
            && forall k | k in PairKeys(v.kind.members) :: Lookup(r.entries, k) == Some(ToValue(LastPairValue(v.kind.members, k)))
  {
    PairEntriesSpec([], v.kind.members);
  }

  /** Spreads and type definitions contribute nothing: dropping them does not change the result. */
  lemma {:induction false} NonPairsDropped(acc: seq<Entry>, ms: seq<A.Member>, m: A.Member)
    requires !m.PairMember?
    ensures PairEntries(acc, [m] + ms) == PairEntries(acc, ms)
  {
    assert ([m] + ms)[1..] == ms;
  }
}

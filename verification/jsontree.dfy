/**
 JSON-like trees as `dataclasses.asdict` and `json.dumps` see them, and
 `remove_none` (slack.py), which deletes every `None` from nested lists and
 dicts. A dict is a sequence of key/value pairs so that insertion order, which
 Python dicts keep, is part of the value.
 */
module JsonTree {

  datatype Json =
    | JNull                              // Python None
    | JBool(b: bool)
    | JInt(i: int)
    | JStr(s: string)
    | JArr(items: seq<Json>)             // list
    | JObj(members: seq<(string, Json)>) // dict, in insertion order

  /** True when `v` is a list or a dict. */
  predicate IsContainer(v: Json) {
    v.JArr? || v.JObj?
  }

  /** No `None` anywhere in `v`, `v` itself included. */
  predicate NullFree(v: Json) {
    match v
    case JNull => false
    case JArr(items) => forall i :: 0 <= i < |items| ==> NullFree(items[i])
    case JObj(ms) =>
      forall i :: 0 <= i < |ms| ==> var m := ms[i]; assert m in ms; NullFree(m.1)
    case _ => true
  }

  /** The keys of a dict, in order. */
  function Keys(ms: seq<(string, Json)>): (ks: seq<string>)
    ensures |ks| == |ms|
    ensures forall i :: 0 <= i < |ms| ==> ks[i] == ms[i].0
  {
    if |ms| == 0 then [] else [ms[0].0] + Keys(ms[1..])
  }

  /** No key occurs twice: the shape every Python dict has. */
  predicate DistinctKeys(ms: seq<(string, Json)>) {
    forall i, j :: 0 <= i < j < |ms| ==> ms[i].0 != ms[j].0
  }

  // ---------------------------------------------------------------------------
  // remove_none

  /**
   `remove_none(value)`: a list keeps its non-`None` elements, a dict its
   entries whose value is not `None`, each survivor pruned in turn; any other
   value, `None` included, comes back unchanged.
   */
  function RemoveNone(v: Json): (r: Json)
    ensures v.JNull? ==> r.JNull?
    ensures !v.JNull? ==> NullFree(r)
    ensures !IsContainer(v) ==> r == v
    ensures v.JArr? <==> r.JArr?
    ensures v.JObj? <==> r.JObj?
    decreases v, 1
  {
    match v
    case JArr(items) => JArr(PruneItems(items))
    case JObj(ms) => JObj(PruneMembers(ms))
    case _ => v
  }

  /** The list case of `remove_none`: every element that is not `None`, pruned, in order. */
  function PruneItems(items: seq<Json>): (r: seq<Json>)
    ensures forall i :: 0 <= i < |r| ==> NullFree(r[i])
    ensures |r| <= |items|
    decreases items, 0
  {
    if |items| == 0 then []
    else
      var rest := PruneItems(items[1..]);
      if items[0].JNull? then rest else [RemoveNone(items[0])] + rest
  }

  /**
   The dict case of `remove_none`: every entry whose value is not `None`,
   its value pruned, in insertion order.
   */
  function PruneMembers(ms: seq<(string, Json)>): (r: seq<(string, Json)>)
    ensures forall i :: 0 <= i < |r| ==> NullFree(r[i].1)
    ensures |r| <= |ms|
    decreases ms, 0
  {
    if |ms| == 0 then []
    else
      var m := ms[0];
      assert m in ms;
      assert m.1 < m;
      var rest := PruneMembers(ms[1..]);
      if m.1.JNull? then rest else [(m.0, RemoveNone(m.1))] + rest
  }

  // ---------------------------------------------------------------------------
  // Reference definitions: a comprehension is a filter followed by a map.

  /** The elements of `items` that are not `None`, in order. */
  function NonNullItems(items: seq<Json>): (r: seq<Json>)
    ensures forall i :: 0 <= i < |r| ==> !r[i].JNull?
  {
    if |items| == 0 then []
    else if items[0].JNull? then NonNullItems(items[1..])
    else [items[0]] + NonNullItems(items[1..])
  }

  /** The entries of `ms` whose value is not `None`, in order. */
  function NonNullMembers(ms: seq<(string, Json)>): (r: seq<(string, Json)>)
    ensures forall i :: 0 <= i < |r| ==> !r[i].1.JNull?
  {
    if |ms| == 0 then []
    else if ms[0].1.JNull? then NonNullMembers(ms[1..])
    else [ms[0]] + NonNullMembers(ms[1..])
  }

  /** How many elements of `items` are not `None`. */
  function CountNonNull(items: seq<Json>): nat
  {
    if |items| == 0 then 0
    else (if items[0].JNull? then 0 else 1) + CountNonNull(items[1..])
  }

  /** `remove_none` applied to every element. */
  function MapRemoveNone(xs: seq<Json>): (r: seq<Json>)
    ensures |r| == |xs|
  {
    seq(|xs|, i requires 0 <= i < |xs| => RemoveNone(xs[i]))
  }

  /** `remove_none` applied to every value, keys untouched. */
  function MapRemoveNoneValues(ms: seq<(string, Json)>): (r: seq<(string, Json)>)
    ensures |r| == |ms|
  {
    seq(|ms|, i requires 0 <= i < |ms| => (ms[i].0, RemoveNone(ms[i].1)))
  }

  // ---------------------------------------------------------------------------
  // Properties of remove_none

  /** Pruning a list is: drop the `None`s, keeping order, then prune each survivor. */
  lemma {:induction false} PruneItemsIsFilterThenMap(items: seq<Json>)
    ensures PruneItems(items) == MapRemoveNone(NonNullItems(items))
    ensures |PruneItems(items)| == CountNonNull(items)
  {
    if |items| > 0 {
      PruneItemsIsFilterThenMap(items[1..]);
      var rest := NonNullItems(items[1..]);
      if !items[0].JNull? {
        assert MapRemoveNone([items[0]] + rest) == [RemoveNone(items[0])] + MapRemoveNone(rest);
      }
    }
  }

  /** Pruning a dict is: drop the `None`-valued entries, keeping order, then prune each value. */
  lemma {:induction false} PruneMembersIsFilterThenMap(ms: seq<(string, Json)>)
    ensures PruneMembers(ms) == MapRemoveNoneValues(NonNullMembers(ms))
    ensures Keys(PruneMembers(ms)) == Keys(NonNullMembers(ms))
  {
    PruneMembersFilterMap(ms);
    KeysOfMapRemoveNoneValues(NonNullMembers(ms));
  }

  /** The induction behind `PruneMembersIsFilterThenMap`, one entry at a time. */
  lemma {:induction false} PruneMembersFilterMap(ms: seq<(string, Json)>)
    ensures PruneMembers(ms) == MapRemoveNoneValues(NonNullMembers(ms))
  {
    if |ms| > 0 {
      PruneMembersFilterMap(ms[1..]);
      var rest := NonNullMembers(ms[1..]);
      if !ms[0].1.JNull? {
        assert NonNullMembers(ms) == [ms[0]] + rest;
        MapRemoveNoneValuesCons(ms[0], rest);
        assert PruneMembers(ms) == [(ms[0].0, RemoveNone(ms[0].1))] + PruneMembers(ms[1..]);
      } else {
        assert NonNullMembers(ms) == rest;
        assert PruneMembers(ms) == PruneMembers(ms[1..]);
      }
    }
  }

  /** `MapRemoveNoneValues` works entry by entry. */
  lemma MapRemoveNoneValuesCons(m: (string, Json), rest: seq<(string, Json)>)
    ensures MapRemoveNoneValues([m] + rest) == [(m.0, RemoveNone(m.1))] + MapRemoveNoneValues(rest)
  {
    var l, r := MapRemoveNoneValues([m] + rest), [(m.0, RemoveNone(m.1))] + MapRemoveNoneValues(rest);
    forall i | 0 <= i < |l| ensures l[i] == r[i] {
      if i > 0 { assert ([m] + rest)[i] == rest[i - 1]; }
    }
  }

  /** Pruning values leaves the keys as they are. */
  lemma KeysOfMapRemoveNoneValues(ms: seq<(string, Json)>)
    ensures Keys(MapRemoveNoneValues(ms)) == Keys(ms)
  {
  }

  /**
   A list element survives exactly when it is not `None`, and then in pruned
   form: `y` is in the result iff some non-`None` `items[i]` prunes to `y`.
   */
  lemma {:induction false} ItemSurvivesIffNotNull(items: seq<Json>, y: Json)
    ensures y in PruneItems(items) <==>
            exists i :: 0 <= i < |items| && !items[i].JNull? && y == RemoveNone(items[i])
  {
    if |items| > 0 {
      ItemSurvivesIffNotNull(items[1..], y);
      if y in PruneItems(items) && !(y in PruneItems(items[1..])) {
        assert !items[0].JNull? && y == RemoveNone(items[0]);
      }
      if exists i :: 0 <= i < |items| && !items[i].JNull? && y == RemoveNone(items[i]) {
        var i :| 0 <= i < |items| && !items[i].JNull? && y == RemoveNone(items[i]);
        if i > 0 {
          assert items[1..][i - 1] == items[i];
        }
      }
    }
  }

  /**
   A dict entry survives exactly when its value is not `None`, under the same
   key and with its value pruned.
   */
  lemma {:induction false} MemberSurvivesIffNotNull(ms: seq<(string, Json)>, k: string, y: Json)
    ensures (k, y) in PruneMembers(ms) <==>
            exists i :: 0 <= i < |ms| && !ms[i].1.JNull? && ms[i].0 == k && y == RemoveNone(ms[i].1)
  {
    if |ms| > 0 {
      MemberSurvivesIffNotNull(ms[1..], k, y);
      if (k, y) in PruneMembers(ms) && !((k, y) in PruneMembers(ms[1..])) {
        assert !ms[0].1.JNull? && ms[0].0 == k && y == RemoveNone(ms[0].1);
      }
      if exists i :: 0 <= i < |ms| && !ms[i].1.JNull? && ms[i].0 == k && y == RemoveNone(ms[i].1) {
        var i :| 0 <= i < |ms| && !ms[i].1.JNull? && ms[i].0 == k && y == RemoveNone(ms[i].1);
        if i > 0 {
          assert ms[1..][i - 1] == ms[i];
        }
      }
    }
  }

  /** Every key of the pruned dict is a key of the original. */
  lemma {:induction false} PrunedKeysComeFromInput(ms: seq<(string, Json)>, k: string)
    requires k in Keys(PruneMembers(ms))
    ensures k in Keys(ms)
  {
    if |ms| > 0 {
      var rest := PruneMembers(ms[1..]);
      if k in Keys(rest) {
        PrunedKeysComeFromInput(ms[1..], k);
        assert Keys(ms) == [ms[0].0] + Keys(ms[1..]);
      }
    }
  }

  /** Pruning a dict with distinct keys yields a dict with distinct keys. */
  lemma {:induction false} PruneMembersKeepsDistinctKeys(ms: seq<(string, Json)>)
    requires DistinctKeys(ms)
    ensures DistinctKeys(PruneMembers(ms))
  {
    if |ms| > 0 {
      assert DistinctKeys(ms[1..]);
      PruneMembersKeepsDistinctKeys(ms[1..]);
      var rest := PruneMembers(ms[1..]);
      if !ms[0].1.JNull? {
        forall j | 0 <= j < |rest|
          ensures ms[0].0 != rest[j].0
        {
          assert rest[j].0 in Keys(rest);
          PrunedKeysComeFromInput(ms[1..], rest[j].0);
        }
      }
    }
  }

  /** A dict literal prunes entry by entry: pruning distributes over concatenation. */
  lemma {:induction false} PruneMembersAppend(a: seq<(string, Json)>, b: seq<(string, Json)>)
    ensures PruneMembers(a + b) == PruneMembers(a) + PruneMembers(b)
  {
    if |a| > 0 {
      assert (a + b)[1..] == a[1..] + b;
      PruneMembersAppend(a[1..], b);
    } else {
      assert a + b == b;
    }
  }

  /** A single entry survives unless its value is `None`. */
  lemma PruneOneMember(k: string, v: Json)
    ensures PruneMembers([(k, v)]) == if v.JNull? then [] else [(k, RemoveNone(v))]
  {
    assert [(k, v)][1..] == [];
  }

  /** A list holding no `None` keeps every element, each pruned in place. */
  lemma {:induction false} PruneItemsWithoutNulls(items: seq<Json>)
    requires forall i :: 0 <= i < |items| ==> !items[i].JNull?
    ensures PruneItems(items) == MapRemoveNone(items)
  {
    if |items| > 0 {
      PruneItemsWithoutNulls(items[1..]);
      assert MapRemoveNone(items) == [RemoveNone(items[0])] + MapRemoveNone(items[1..]);
    }
  }

  /** A `None`-free tree is left as it is. */
  lemma {:induction false} NullFreeIsFixed(v: Json)
    requires NullFree(v)
    ensures RemoveNone(v) == v
    decreases v, 1
  {
    match v
    case JArr(items) => NullFreeItemsFixed(items);
    case JObj(ms) => NullFreeMembersFixed(ms);
    case _ =>
  }

  lemma {:induction false} NullFreeItemsFixed(items: seq<Json>)
    requires forall i :: 0 <= i < |items| ==> NullFree(items[i])
    ensures PruneItems(items) == items
    decreases items, 0
  {
    if |items| > 0 {
      NullFreeIsFixed(items[0]);
      NullFreeItemsFixed(items[1..]);
    }
  }

  lemma {:induction false} NullFreeMembersFixed(ms: seq<(string, Json)>)
    requires forall i :: 0 <= i < |ms| ==> NullFree(ms[i].1)
    ensures PruneMembers(ms) == ms
    decreases ms, 0
  {
    if |ms| > 0 {
      var m := ms[0];
      assert m in ms;
      assert m.1 < m;
      NullFreeIsFixed(m.1);
      NullFreeMembersFixed(ms[1..]);
    }
  }

  /** Pruning a second time changes nothing. */
  lemma RemoveNoneIdempotent(v: Json)
    ensures RemoveNone(RemoveNone(v)) == RemoveNone(v)
  {
    if !v.JNull? {
      NullFreeIsFixed(RemoveNone(v));
    }
  }

  /** A list or dict holding nothing but `None` (the empty ones included). */
  predicate AllNone(v: Json) {
    match v
    case JArr(items) => forall i :: 0 <= i < |items| ==> items[i].JNull?
    case JObj(ms) => forall i :: 0 <= i < |ms| ==> ms[i].1.JNull?
    case _ => false
  }

  /** The empty container of the same kind as `v`. */
  function EmptyLike(v: Json): Json
    requires IsContainer(v)
  {
    if v.JArr? then JArr([]) else JObj([])
  }

  lemma {:induction false} AllNoneItemsVanish(items: seq<Json>)
    requires forall i :: 0 <= i < |items| ==> items[i].JNull?
    ensures PruneItems(items) == []
  {
    if |items| > 0 {
      AllNoneItemsVanish(items[1..]);
    }
  }

  lemma {:induction false} AllNoneMembersVanish(ms: seq<(string, Json)>)
    requires forall i :: 0 <= i < |ms| ==> ms[i].1.JNull?
    ensures PruneMembers(ms) == []
  {
    if |ms| > 0 {
      AllNoneMembersVanish(ms[1..]);
    }
  }

  /** A list of `None`s prunes to `[]`, a dict of `None` values to `{}`. */
  lemma AllNoneEmpties(v: Json)
    requires AllNone(v)
    ensures RemoveNone(v) == EmptyLike(v)
  {
    match v
    case JArr(items) => AllNoneItemsVanish(items);
    case JObj(ms) => AllNoneMembersVanish(ms);
  }

  /**
   Only `None` is removed, not what becomes empty: a dict value that is a list
   of `None`s or a dict of `None` values stays under its key, as `[]` or `{}`.
   */
  lemma EmptyContainerKept(ms: seq<(string, Json)>, i: nat)
    requires i < |ms| && AllNone(ms[i].1)
    ensures (ms[i].0, EmptyLike(ms[i].1)) in PruneMembers(ms)
  {
    AllNoneEmpties(ms[i].1);
    MemberSurvivesIffNotNull(ms, ms[i].0, EmptyLike(ms[i].1));
  }

  /** The same for a list element: it stays in the list, as `[]` or `{}`. */
  lemma EmptyContainerKeptInList(items: seq<Json>, i: nat)
    requires i < |items| && AllNone(items[i])
    ensures EmptyLike(items[i]) in PruneItems(items)
  {
    AllNoneEmpties(items[i]);
    ItemSurvivesIffNotNull(items, EmptyLike(items[i]));
  }

  /** Falsy scalars are values like any other: `""`, `False` and `0` survive in a list. */
  lemma FalsyScalarsKept()
    ensures RemoveNone(JArr([JStr(""), JBool(false), JInt(0), JNull]))
         == JArr([JStr(""), JBool(false), JInt(0)])
  {
  }
}

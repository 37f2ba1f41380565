/**
 `groupSubItem` of src/lib/database/sql-utils.ts: the flat rows of a join become root objects with
 their sub-objects. The rows are changed in place: a root is the first row of its group, and the
 columns of every sub-object are deleted from all rows.

 The order of an object's own keys is not modelled; group ids are of one type.
 */
module Grouping {
  import opened Option

  datatype Value = Null | Num(n: int) | Text(s: string) | Sub(detail: Row) | Subs(details: seq<Row>)

  type Row = map<string, Value>

  datatype Options = Options(prefix: string, fieldName: string, key: string, isArray: bool)

  predicate Truthy(v: Value) {
    match v
    case Null => false
    case Num(n) => n != 0
    case Text(s) => s != ""
    case _ => true
  }

  function Get(row: Row, key: string): Value {
    if key in row then row[key] else Null
  }

  // ---------------------------------------------------------------- one row

  function Names(row: Row, prefix: string): set<string> {
    set k | k in row && prefix <= k :: k[|prefix|..]
  }

  /** The columns with the prefix, without it. */
  function Detail(row: Row, prefix: string): Row {
    map name | name in Names(row, prefix) :: Get(row, prefix + name)
  }

  function Without(row: Row, prefix: string): Row {
    map k | k in row && !(prefix <= k) :: row[k]
  }

  predicate Present(detail: Row) {
    exists k :: k in detail && Truthy(detail[k])
  }

  // ---------------------------------------------------------------- one group

  type Entries = seq<(Value, Row)>

  predicate Has(entries: Entries, key: Value) {
    exists i :: 0 <= i < |entries| && entries[i].0 == key
  }

  /** Setting a key of a map: a key that is there keeps its place. */
  function Put(entries: Entries, key: Value, detail: Row): Entries {
    if |entries| == 0 then [(key, detail)]
    else if entries[0].0 == key then [(key, detail)] + entries[1..]
    else [entries[0]] + Put(entries[1..], key, detail)
  }

  function Keyed(details: seq<Row>, key: string): Entries {
    if |details| == 0 then []
    else Put(Keyed(details[..|details| - 1], key), Get(details[|details| - 1], key), details[|details| - 1])
  }

  function Values(entries: Entries): seq<Row> {
    seq(|entries|, i requires 0 <= i < |entries| => entries[i].1)
  }

  /** The sub-objects among the first `m` rows of a group: rows whose sub-columns are all falsy have none. */
  function Details(rows: seq<Row>, ids: seq<Value>, id: Value, prefix: string, m: nat): seq<Row>
    requires m <= |rows| == |ids|
  {
    if m == 0 then []
    else if ids[m - 1] == id && Present(Detail(rows[m - 1], prefix))
    then Details(rows, ids, id, prefix, m - 1) + [Detail(rows[m - 1], prefix)]
    else Details(rows, ids, id, prefix, m - 1)
  }

  /** What the root is given: all distinct sub-objects, or the last one. */
  function FieldValue(opt: Options, details: seq<Row>): Value
    requires |details| > 0
  {
    if opt.isArray then Subs(Values(Keyed(details, opt.key))) else Sub(details[|details| - 1])
  }

  function Ids(rows: seq<Row>, groupIdKey: string): (ids: seq<Value>)
    ensures |ids| == |rows|
  {
    seq(|rows|, i requires 0 <= i < |rows| => Get(rows[i], groupIdKey))
  }

  predicate IsRoot(ids: seq<Value>, i: nat)
    requires i < |ids|
  {
    ids[i] !in ids[..i]
  }

  /** The first rows of the groups among the first `m` rows, in order. */
  function Roots(ids: seq<Value>, m: nat): (r: seq<nat>)
    requires m <= |ids|
    ensures forall k :: 0 <= k < |r| ==> r[k] < m && IsRoot(ids, r[k])
  {
    if m == 0 then [] else if IsRoot(ids, m - 1) then Roots(ids, m - 1) + [m - 1] else Roots(ids, m - 1)
  }

  // ---------------------------------------------------------------- the reference: a plain group-by

  predicate Matches(k: string, options: seq<Options>) {
    exists j :: 0 <= j < |options| && options[j].prefix <= k
  }

  /** The row without the columns of any sub-object. */
  function Own(row: Row, options: seq<Options>): Row {
    map k | k in row && !Matches(k, options) :: row[k]
  }

  /** The fields of a group's root, one for each option that has a sub-object in the group. */
  function Fields(rows: seq<Row>, ids: seq<Value>, id: Value, options: seq<Options>): Row
    requires |rows| == |ids|
  {
    if |options| == 0 then map[]
    else
      var opt := options[|options| - 1];
      var details := Details(rows, ids, id, opt.prefix, |rows|);
      if details == [] then Fields(rows, ids, id, options[..|options| - 1])
      else Fields(rows, ids, id, options[..|options| - 1])[opt.fieldName := FieldValue(opt, details)]
  }

  /** One object per group in the order of first occurrence: the first row's own columns and the fields. */
  function Grouped(rows: seq<Row>, groupIdKey: string, options: seq<Options>): seq<Row> {
    var ids := Ids(rows, groupIdKey);
    var roots := Roots(ids, |ids|);
    seq(|roots|, k requires 0 <= k < |roots| =>
      Own(rows[roots[k]], options) + Fields(rows, ids, ids[roots[k]], options))
  }

  // ---------------------------------------------------------------- in place

  /** The group id is no column of an option and no field. */
  predicate KeepsKey(groupIdKey: string, options: seq<Options>) {
    forall i :: 0 <= i < |options| ==> !(options[i].prefix <= groupIdKey) && options[i].fieldName != groupIdKey
  }

  /** No column belongs to two options, and no field looks like a column of an option. */
  predicate Admissible(options: seq<Options>) {
    && (forall i, j ::
       0 <= i < j < |options|
       ==> !(options[i].prefix <= options[j].prefix) && !(options[j].prefix <= options[i].prefix))
    && (forall i, j :: 0 <= i < |options| && 0 <= j < |options| ==> !(options[i].prefix <= options[j].fieldName))
  }

  /** Row `i` when the pass of one option has seen the first `m` rows. */
  function PassRow(before: seq<Row>, ids: seq<Value>, opt: Options, i: nat, m: nat): Row
    requires i < |before| == |ids| && m <= |before|
  {
    var base := if i < m then Without(before[i], opt.prefix) else before[i];
    var details := Details(before, ids, ids[i], opt.prefix, m);
    if IsRoot(ids, i) && details != [] then base[opt.fieldName := FieldValue(opt, details)] else base
  }

  function Pass(before: seq<Row>, ids: seq<Value>, opt: Options, m: nat): (r: seq<Row>)
    requires |before| == |ids| && m <= |before|
    ensures |r| == |before|
  {
    seq(|before|, i requires 0 <= i < |before| => PassRow(before, ids, opt, i, m))
  }

  function Passes(rows: seq<Row>, ids: seq<Value>, options: seq<Options>): (r: seq<Row>)
    requires |rows| == |ids|
    ensures |r| == |rows|
  {
    if |options| == 0 then rows
    else Pass(Passes(rows, ids, options[..|options| - 1]), ids, options[|options| - 1], |rows|)
  }

  // ---------------------------------------------------------------- the code

  /** Takes the columns of one sub-object off a row. */
  method TakeDetail(row: Row, prefix: string) returns (rest: Row, detail: Row, present: bool)
    ensures rest == Without(row, prefix) && detail == Detail(row, prefix) && (present <==> Present(detail))
  {
    var keys := row.Keys;
    var nonNullFieldCount := 0;
    rest, detail := row, map[];
    while keys != {}
      invariant keys <= row.Keys
      invariant rest == map k | k in row && (k in keys || !(prefix <= k)) :: row[k]
      invariant forall n :: n in detail <==> prefix + n in row && prefix + n !in keys
      invariant forall n :: n in detail ==> detail[n] == row[prefix + n]
      invariant nonNullFieldCount >= 0
      invariant nonNullFieldCount > 0 <==> Present(detail)
    {
      var key :| key in keys;
      keys := keys - {key};
      if prefix <= key {
        var name := key[|prefix|..];
        assert prefix + name == key;
        NameIsNew(detail, name, row[key]);
        detail := detail[name := row[key]];
        nonNullFieldCount := nonNullFieldCount + if Truthy(row[key]) then 1 else 0;
        rest := rest - {key};
      }
    }
    DetailIs(row, prefix, detail);
    present := nonNullFieldCount > 0;
  }

  lemma NameIsNew(detail: Row, name: string, v: Value)
    requires name !in detail
    ensures Present(detail[name := v]) <==> Present(detail) || Truthy(v)
  {
    if Truthy(v) { assert detail[name := v][name] == v; }
    if Present(detail) {
      var k :| k in detail && Truthy(detail[k]);
      assert detail[name := v][k] == detail[k];
    }
  }

  lemma DetailIs(row: Row, prefix: string, detail: Row)
    requires forall n :: n in detail <==> prefix + n in row
    requires forall n :: n in detail ==> detail[n] == row[prefix + n]
    ensures detail == Detail(row, prefix)
  {
    NamesAre(row, prefix);
  }

  lemma NamesAre(row: Row, prefix: string)
    ensures forall n :: n in Names(row, prefix) <==> prefix + n in row
  {
    forall n ensures n in Names(row, prefix) <==> prefix + n in row {
      if prefix + n in row { assert prefix <= prefix + n && (prefix + n)[|prefix|..] == n; }
      if n in Names(row, prefix) {
        var k :| k in row && prefix <= k && k[|prefix|..] == n;
        assert prefix + n == k;
      }
    }
  }

  /** The group map after the first `known` rows: first rows by id, in insertion order. */
  ghost predicate Tracks(groupItems: map<Value, nat>, order: seq<nat>, ids: seq<Value>, known: nat)
    requires known <= |ids|
  {
    && order == Roots(ids, known)
    && (forall id :: id in groupItems <==> id in ids[..known])
    && forall id ::
       id in groupItems ==> groupItems[id] < |ids| && IsRoot(ids, groupItems[id]) && ids[groupItems[id]] == id
  }

  lemma OneRoot(ids: seq<Value>, i: nat, j: nat)
    requires i < |ids| && j < |ids| && IsRoot(ids, i) && IsRoot(ids, j) && ids[i] == ids[j]
    ensures i == j
  {
    NothingBefore(ids, i, j);
    NothingBefore(ids, j, i);
  }

  lemma NothingBefore(ids: seq<Value>, i: nat, root: nat)
    ensures i < root < |ids| && IsRoot(ids, root) ==> ids[i] != ids[root]
  {
    if i < root < |ids| { assert ids[..root][i] == ids[i]; }
  }

  lemma {:induction false} NoneBeforeRoot(before: seq<Row>, ids: seq<Value>, prefix: string, i: nat, m: nat)
    requires m <= i < |before| == |ids| && IsRoot(ids, i)
    ensures Details(before, ids, ids[i], prefix, m) == []
  {
    if m == 0 {
    } else {
      NoneBeforeRoot(before, ids, prefix, i, m - 1);
      assert ids[m - 1] in ids[..i];
    }
  }

  lemma RowUntouched(before: seq<Row>, ids: seq<Value>, opt: Options, m: nat)
    requires m < |before| == |ids|
    ensures Pass(before, ids, opt, m)[m] == before[m]
  {
    if IsRoot(ids, m) { NoneBeforeRoot(before, ids, opt.prefix, m, m); }
  }

  lemma RootIsFound(groups: map<Value, nat>, order: seq<nat>, ids: seq<Value>, m: nat, known: nat)
    requires m < |ids| && (known == 0 || known == |ids|) && Tracks(groups, order, ids, if known == 0 then m else known)
    ensures if ids[m] in groups then Tracks(groups, order, ids, if known == 0 then m + 1 else known)
            else known == 0 && IsRoot(ids, m) && Tracks(groups[ids[m] := m], order + [m], ids, m + 1)
  {
    if known == 0 {
      assert ids[..m + 1] == ids[..m] + [ids[m]];
    } else {
      assert ids[m] in ids[..known];
    }
  }

  lemma KeyedOfMore(details: seq<Row>, d: Row, key: string)
    ensures Keyed(details + [d], key) == Put(Keyed(details, key), Get(d, key), d)
  {
    assert (details + [d])[..|details|] == details;
  }

  /** What one row adds to the pass: its own columns go, and its group's root gets the new field value. */
  lemma OneRowFurther(before: seq<Row>, ids: seq<Value>, opt: Options, m: nat, root: nat)
    requires m < |before| == |ids| && root < |ids| && IsRoot(ids, root) && ids[root] == ids[m]
    ensures var d := Detail(before[m], opt.prefix);
            var was, now := Details(before, ids, ids[m], opt.prefix, m),
              Details(before, ids, ids[m], opt.prefix, m + 1);
            var taken := Pass(before, ids, opt, m)[m := Without(before[m], opt.prefix)];
            if Present(d)
            then now == was + [d]
                 && Pass(before, ids, opt, m + 1) == taken[root := taken[root][opt.fieldName := FieldValue(opt, now)]]
            else Pass(before, ids, opt, m + 1) == taken
  {
    hide Detail, Without, Present;
    var was, now := Details(before, ids, ids[m], opt.prefix, m), Details(before, ids, ids[m], opt.prefix, m + 1);
    var taken := Pass(before, ids, opt, m)[m := Without(before[m], opt.prefix)];
    NothingBefore(ids, m, root);
    if root == m { NoneBeforeRoot(before, ids, opt.prefix, m, m); }
    forall i | 0 <= i < |before| && i != root
      ensures Pass(before, ids, opt, m + 1)[i] == taken[i]
    {
      if IsRoot(ids, i) && ids[i] == ids[m] { OneRoot(ids, i, root); }
    }
    if Present(Detail(before[m], opt.prefix)) {
      var after := taken[root := taken[root][opt.fieldName := FieldValue(opt, now)]];
      assert Pass(before, ids, opt, m + 1)[root] == after[root];
      assert Pass(before, ids, opt, m + 1) == after;
    } else {
      assert Pass(before, ids, opt, m + 1) == taken;
    }
  }

  /** The map of the pass: the distinct sub-objects seen so far, per group. */
  ghost predicate Collects(subitems: map<Value, Entries>, before: seq<Row>, ids: seq<Value>, opt: Options, m: nat)
    requires m <= |before| == |ids|
  {
    forall id :: Seen(subitems, id) == Keyed(Details(before, ids, id, opt.prefix, m), opt.key)
  }

  function Seen(subitems: map<Value, Entries>, id: Value): Entries {
    if id in subitems then subitems[id] else []
  }

  lemma CollectsOneMore(subitems: map<Value, Entries>, before: seq<Row>, ids: seq<Value>, opt: Options, m: nat)
    requires m < |before| == |ids| && Collects(subitems, before, ids, opt, m)
    ensures var d := Detail(before[m], opt.prefix);
            if Present(d) then
              && Put(Seen(subitems, ids[m]), Get(d, opt.key), d)
                == Keyed(Details(before, ids, ids[m], opt.prefix, m + 1), opt.key)
              && Collects(subitems[ids[m] := Put(Seen(subitems, ids[m]), Get(d, opt.key), d)], before, ids, opt, m + 1)
            else Collects(subitems, before, ids, opt, m + 1)
  {
    hide Detail, Present, Keyed, Put;
    var d := Detail(before[m], opt.prefix);
    KeyedOfMore(Details(before, ids, ids[m], opt.prefix, m), d, opt.key);
    var entries := Put(Seen(subitems, ids[m]), Get(d, opt.key), d);
    assert Seen(subitems, ids[m]) == Keyed(Details(before, ids, ids[m], opt.prefix, m), opt.key);
    var after := if Present(d) then subitems[ids[m] := entries] else subitems;
    forall id ensures Seen(after, id) == Keyed(Details(before, ids, id, opt.prefix, m + 1), opt.key) {
      assert Seen(subitems, id) == Keyed(Details(before, ids, id, opt.prefix, m), opt.key);
    }
  }

  lemma NothingSeen(before: seq<Row>, ids: seq<Value>, opt: Options)
    requires |before| == |ids|
    ensures Pass(before, ids, opt, 0) == before && Collects(map[], before, ids, opt, 0)
  {}

  lemma IdIs(rows: seq<Row>, groupIdKey: string, i: nat)
    requires i < |rows|
    ensures Ids(rows, groupIdKey)[i] == Get(rows[i], groupIdKey)
  {}

  lemma RootTracked(groups: map<Value, nat>, order: seq<nat>, ids: seq<Value>, known: nat, id: Value)
    requires known <= |ids| && Tracks(groups, order, ids, known) && id in groups
    ensures groups[id] < |ids| && IsRoot(ids, groups[id]) && ids[groups[id]] == id
  {}

  /** The pass of one option over all rows. */
  method PassOption(items: array<Row>, groupIdKey: string, opt: Options, groups: map<Value, nat>, roots: seq<nat>,
                    ghost ids: seq<Value>, ghost known: nat) returns (groupItems: map<Value, nat>, order: seq<nat>)
    requires ids == Ids(items[..], groupIdKey)
    requires known == 0 || known == |ids|
    requires Tracks(groups, roots, ids, known)
    requires !(opt.prefix <= groupIdKey) && opt.fieldName != groupIdKey
    modifies items
    ensures items[..] == Pass(old(items[..]), ids, opt, |ids|)
    ensures Tracks(groupItems, order, ids, |ids|)
  {
    hide Pass, Collects, Tracks, Detail, Without, Present, Keyed, Put, Details, Roots, Ids;
    ghost var before := items[..];
    var subitemsMap: map<Value, Entries> := map[];
    groupItems, order := groups, roots;
    NothingSeen(before, ids, opt);
    for m := 0 to items.Length
      invariant items[..] == Pass(before, ids, opt, m)
      invariant Tracks(groupItems, order, ids, if known == 0 then m else known)
      invariant opt.isArray ==> Collects(subitemsMap, before, ids, opt, m)
    {
      RowUntouched(before, ids, opt, m);
      assert items[m] == items[..][m];
      var id := Get(items[m], groupIdKey);
      IdIs(before, groupIdKey, m);
      RootIsFound(groupItems, order, ids, m, known);
      if id !in groupItems {
        groupItems, order := groupItems[id := m], order + [m];
      }
      var uniqItem := groupItems[id];
      RootTracked(groupItems, order, ids, if known == 0 then m + 1 else known, id);
      OneRowFurther(before, ids, opt, m, uniqItem);
      if opt.isArray { CollectsOneMore(subitemsMap, before, ids, opt, m); }
      var rest, detailObj, nonNull := TakeDetail(items[m], opt.prefix);
      items[m] := rest;
      if nonNull {
        if opt.isArray {
          var objMap := Put(Seen(subitemsMap, id), Get(detailObj, opt.key), detailObj);
          subitemsMap := subitemsMap[id := objMap];
          items[uniqItem] := items[uniqItem][opt.fieldName := Subs(Values(objMap))];
        } else {
          items[uniqItem] := items[uniqItem][opt.fieldName := Sub(detailObj)];
        }
      }
    }
  }

  lemma PassKeepsIds(before: seq<Row>, groupIdKey: string, ids: seq<Value>, opt: Options, m: nat)
    requires m <= |before| == |ids| && !(opt.prefix <= groupIdKey) && opt.fieldName != groupIdKey
    ensures Ids(Pass(before, ids, opt, m), groupIdKey) == Ids(before, groupIdKey)
  {
    var after := Pass(before, ids, opt, m);
    forall i | 0 <= i < |before| ensures Get(after[i], groupIdKey) == Get(before[i], groupIdKey) {}
  }

  lemma {:induction false} PassesKeepIds(rows: seq<Row>, groupIdKey: string, ids: seq<Value>, options: seq<Options>,
          n: nat)
    requires n <= |options| && KeepsKey(groupIdKey, options) && ids == Ids(rows, groupIdKey)
    ensures Ids(Passes(rows, ids, options[..n]), groupIdKey) == ids
  {
    if n == 0 {
    } else {
      PassesKeepIds(rows, groupIdKey, ids, options, n - 1);
      assert options[..n][..n - 1] == options[..n - 1];
      PassKeepsIds(Passes(rows, ids, options[..n - 1]), groupIdKey, ids, options[n - 1], |rows|);
    }
  }

  // ---------------------------------------------------------------- the passes compute the group-by

  /** Columns of an option that is still to come are untouched by the others. */
  lemma DetailUntouched(row: Row, options: seq<Options>, fields: Row, prefix: string)
    requires forall j :: 0 <= j < |options| ==> !(options[j].prefix <= prefix) && !(prefix <= options[j].prefix)
    requires forall k :: k in fields ==> !(prefix <= k)
    ensures Detail(Own(row, options) + fields, prefix) == Detail(row, prefix)
  {
    var after := Own(row, options) + fields;
    forall k | prefix <= k ensures k in after <==> k in row {
      if Matches(k, options) {
        var j :| 0 <= j < |options| && options[j].prefix <= k;
        PrefixesOfOne(options[j].prefix, prefix, k);
      }
    }
    NamesAre(after, prefix);
    NamesAre(row, prefix);
    assert forall n :: prefix <= prefix + n;
    assert Names(after, prefix) == Names(row, prefix);
  }

  lemma PrefixesOfOne(p: string, q: string, k: string)
    requires p <= k && q <= k
    ensures p <= q || q <= p
  {}

  lemma {:induction false} FieldNames(rows: seq<Row>, ids: seq<Value>, id: Value, options: seq<Options>)
    requires |rows| == |ids|
    ensures forall k ::
            k in Fields(rows, ids, id, options) ==> exists j :: 0 <= j < |options| && k == options[j].fieldName
  {
    if |options| > 0 {
      var init := options[..|options| - 1];
      FieldNames(rows, ids, id, init);
      forall k | k in Fields(rows, ids, id, options)
        ensures exists j :: 0 <= j < |options| && k == options[j].fieldName
      {
        if k in Fields(rows, ids, id, init) {
          var j :| 0 <= j < |init| && k == init[j].fieldName;
          assert k == options[j].fieldName;
        } else {
          assert k == options[|options| - 1].fieldName;
        }
      }
    }
  }

  function FieldsAt(rows: seq<Row>, ids: seq<Value>, i: nat, options: seq<Options>): Row
    requires i < |rows| == |ids|
  {
    if IsRoot(ids, i) then Fields(rows, ids, ids[i], options) else map[]
  }

  lemma {:induction false} SameDetails(a: seq<Row>, b: seq<Row>, ids: seq<Value>, id: Value, prefix: string, m: nat)
    requires m <= |a| == |b| == |ids| && forall i :: 0 <= i < |a| ==> Detail(a[i], prefix) == Detail(b[i], prefix)
    ensures Details(a, ids, id, prefix, m) == Details(b, ids, id, prefix, m)
  {
    hide Detail, Present;
    if m == 0 {
    } else {
      SameDetails(a, b, ids, id, prefix, m - 1);
    }
  }

  lemma OwnWithout(row: Row, options: seq<Options>, fields: Row, opt: Options)
    requires forall k :: k in fields ==> !(opt.prefix <= k)
    ensures Without(Own(row, options) + fields, opt.prefix) == Own(row, options + [opt]) + fields
  {
    var all := options + [opt];
    forall k ensures Matches(k, all) <==> Matches(k, options) || opt.prefix <= k {
      if Matches(k, options) {
        var j :| 0 <= j < |options| && options[j].prefix <= k;
        assert all[j].prefix <= k;
      }
      if opt.prefix <= k { assert all[|options|].prefix <= k; }
    }
  }

  /** After the passes of all options every row has lost their columns, and every root has its fields,
      computed from the rows as they were before the first pass. */
  lemma {:induction false} PassesAre(rows: seq<Row>, ids: seq<Value>, options: seq<Options>)
    requires |rows| == |ids| && Admissible(options)
    ensures forall i ::
            0 <= i < |rows| ==> Passes(rows, ids, options)[i] == Own(rows[i], options) + FieldsAt(rows, ids, i, options)
  {
    if |options| == 0 {
      forall i | 0 <= i < |rows| ensures rows[i] == Own(rows[i], options) + FieldsAt(rows, ids, i, options) {
        assert forall k :: !Matches(k, options);
      }
    } else {
      hide PassRow, Own, Details, Detail, FieldsAt;
      var init := options[..|options| - 1];
      PassesAre(rows, ids, init);
      forall i | 0 <= i < |rows|
        ensures Passes(rows, ids, options)[i] == Own(rows[i], options) + FieldsAt(rows, ids, i, options)
      {
        LastPass(rows, ids, options, Passes(rows, ids, init), i);
      }
    }
  }

  lemma LastPass(rows: seq<Row>, ids: seq<Value>, options: seq<Options>, before: seq<Row>, i: nat)
    requires |rows| == |ids| == |before| && Admissible(options) && |options| > 0 && i < |rows|
    requires forall j ::
             0 <= j < |rows|
             ==> before[j] == Own(rows[j], options[..|options| - 1]) + FieldsAt(rows, ids, j, options[..|options| - 1])
    ensures PassRow(before, ids, options[|options| - 1], i, |rows|)
            == Own(rows[i], options) + FieldsAt(rows, ids, i, options)
  {
    hide Own, Details, Detail, Without, FieldValue;
    var init, opt := options[..|options| - 1], options[|options| - 1];
    assert options == init + [opt];
    forall j | 0 <= j < |rows| ensures Detail(before[j], opt.prefix) == Detail(rows[j], opt.prefix) {
      FieldsFree(rows, ids, init, opt, j);
      DetailUntouched(rows[j], init, FieldsAt(rows, ids, j, init), opt.prefix);
    }
    SameDetails(before, rows, ids, ids[i], opt.prefix, |rows|);
    FieldsFree(rows, ids, init, opt, i);
    OwnWithout(rows[i], init, FieldsAt(rows, ids, i, init), opt);
  }

  lemma FieldsFree(rows: seq<Row>, ids: seq<Value>, init: seq<Options>, opt: Options, i: nat)
    requires |rows| == |ids| && Admissible(init + [opt]) && i < |rows|
    ensures forall k :: k in FieldsAt(rows, ids, i, init) ==> !(opt.prefix <= k)
  {
    var options := init + [opt];
    FieldNames(rows, ids, ids[i], init);
    forall k | k in FieldsAt(rows, ids, i, init) ensures !(opt.prefix <= k) {
      var j :| 0 <= j < |init| && k == init[j].fieldName;
      assert options[j].fieldName == k && options[|init|] == opt;
    }
  }

  /** The roots after the passes of all options, in the order of first occurrence. */
  function RootsAfter(rows: seq<Row>, groupIdKey: string, options: seq<Options>): seq<Row> {
    var ids := Ids(rows, groupIdKey);
    var roots := Roots(ids, |ids|);
    seq(|roots|, k requires 0 <= k < |roots| => Passes(rows, ids, options)[roots[k]])
  }

  lemma PassesGroup(rows: seq<Row>, groupIdKey: string, options: seq<Options>)
    requires Admissible(options)
    ensures Grouped(rows, groupIdKey, options) == RootsAfter(rows, groupIdKey, options)
  {
    var ids := Ids(rows, groupIdKey);
    PassesAre(rows, ids, options);
  }

  method GroupSubItem(items: array<Row>, groupIdKey: string, subItemsOptions: seq<Options>) returns (result: seq<Row>)
    requires KeepsKey(groupIdKey, subItemsOptions)
    modifies items
    ensures subItemsOptions == [] ==> result == []
    ensures subItemsOptions != [] ==> result == RootsAfter(old(items[..]), groupIdKey, subItemsOptions)
    ensures subItemsOptions != [] && Admissible(subItemsOptions) ==>
              result == Grouped(old(items[..]), groupIdKey, subItemsOptions)
  {
    hide Pass, Own, Fields, Ids, Admissible;
    ghost var rows := items[..];
    ghost var ids := Ids(rows, groupIdKey);
    var groupItems: map<Value, nat>, order: seq<nat> := map[], [];
    for n := 0 to |subItemsOptions|
      invariant items[..] == Passes(rows, ids, subItemsOptions[..n])
      invariant Tracks(groupItems, order, ids, if n == 0 then 0 else |ids|)
    {
      assert subItemsOptions[..n + 1][..n] == subItemsOptions[..n];
      PassesKeepIds(rows, groupIdKey, ids, subItemsOptions, n);
      groupItems, order :=
        PassOption(items, groupIdKey, subItemsOptions[n], groupItems, order, ids, if n == 0 then 0 else |ids|);
    }
    assert subItemsOptions[..|subItemsOptions|] == subItemsOptions;
    result := [];
    for k := 0 to |order|
      invariant |result| == k && forall i :: 0 <= i < k ==> order[i] < items.Length && result[i] == items[order[i]]
    {
      assert subItemsOptions != [];
      result := result + [items[order[k]]];
    }
    if subItemsOptions != [] && Admissible(subItemsOptions) {
      PassesGroup(rows, groupIdKey, subItemsOptions);
    }
  }

  /** Why the prefixes must be disjoint: a column with both prefixes goes to the first option only. The
      second one's sub-object, which the group-by has, is missing. */
  lemma SwallowedColumn(column: string, v: Value, first: Options, second: Options)
    requires first.prefix <= column && second.prefix <= column && Truthy(v) && first.fieldName != second.fieldName
    requires !(second.prefix <= first.fieldName) && !(first.prefix <= second.fieldName)
    ensures var rows, ids, options := [map[column := v]], [Null], [first, second];
            && second.fieldName !in Passes(rows, ids, options)[0]
            && second.fieldName in Fields(rows, ids, Null, options)
  {
    var row: Row := map[column := v];
    var rows, ids: seq<Value>, options := [row], [Null], [first, second];
    assert options[..1] == [first] && [first][..0] == [];
    HasDetail(row, column, first.prefix);
    HasDetail(row, column, second.prefix);
    assert Details(rows, ids, Null, second.prefix, 1) == [] + [Detail(row, second.prefix)];
    var between := Pass(rows, ids, first, 1);
    assert Passes(rows, ids, [first]) == between;
    assert forall k :: k in between[0] ==> k == first.fieldName;
    NoDetail(between[0], second.prefix);
    assert Details(between, ids, Null, second.prefix, 1) == [];
    assert Passes(rows, ids, options) == Pass(between, ids, second, 1);
  }

  lemma HasDetail(row: Row, column: string, prefix: string)
    requires column in row && prefix <= column && Truthy(row[column])
    ensures Present(Detail(row, prefix))
  {
    var name := column[|prefix|..];
    assert prefix + name == column;
    NamesAre(row, prefix);
    assert Detail(row, prefix)[name] == row[column];
  }

  lemma NoDetail(row: Row, prefix: string)
    requires forall k :: k in row ==> !(prefix <= k)
    ensures !Present(Detail(row, prefix))
  {
    assert Names(row, prefix) == {};
  }

  // ---------------------------------------------------------------- the distinct sub-objects

  /** The first sub-object with the key value; their number when there is none. */
  function FirstWith(details: seq<Row>, key: string, k: Value): (f: nat)
    ensures f <= |details|
  {
    if |details| == 0 then 0
    else if FirstWith(details[..|details| - 1], key, k) < |details| - 1 then FirstWith(details[..|details| - 1], key, k)
    else if Get(details[|details| - 1], key) == k then |details| - 1
    else |details|
  }

  function LastWith(details: seq<Row>, key: string, k: Value): Row {
    if |details| == 0 then map[]
    else if Get(details[|details| - 1], key) == k then details[|details| - 1]
    else LastWith(details[..|details| - 1], key, k)
  }

  predicate KeysDiffer(entries: Entries) {
    forall i, j :: 0 <= i < j < |entries| ==> entries[i].0 != entries[j].0
  }

  lemma PutFirst(entries: Entries, key: Value, d: Row)
    requires |entries| > 0
    ensures Put(entries, key, d)
            == if entries[0].0 == key then entries[0 := (key, d)] else [entries[0]] + Put(entries[1..], key, d)
  {}

  lemma {:induction false} PutReplacesOrAppends(entries: Entries, key: Value, d: Row)
    requires KeysDiffer(entries)
    ensures forall i :: 0 <= i < |entries| && entries[i].0 == key ==> Put(entries, key, d) == entries[i := (key, d)]
    ensures !Has(entries, key) ==> Put(entries, key, d) == entries + [(key, d)]
  {
    if |entries| == 0 {
    } else {
      var rest := entries[1..];
      assert forall i :: 0 <= i < |rest| ==> rest[i] == entries[i + 1];
      PutReplacesOrAppends(rest, key, d);
      PutFirst(entries, key, d);
      hide Put;
      if entries[0].0 != key {
        forall i | 0 <= i < |entries| && entries[i].0 == key ensures Put(entries, key, d) == entries[i := (key, d)] {
          assert rest[i - 1].0 == key;
          assert entries[i := (key, d)] == [entries[0]] + rest[i - 1 := (key, d)];
        }
        if !Has(entries, key) { assert !Has(rest, key); }
      }
    }
  }

  lemma {:induction false} HasAfterPut(e: Entries, k: Value, d: Row, x: Value)
    ensures Has(Put(e, k, d), x) <==> Has(e, x) || x == k
  {
    var f := Put(e, k, d);
    if |e| == 0 {
    } else {
      HasAfterPut(e[1..], k, d, x);
      HasOf(e, x);
    }
    HasOf(f, x);
  }

  lemma HasOf(e: Entries, x: Value)
    requires |e| > 0
    ensures Has(e, x) <==> e[0].0 == x || Has(e[1..], x)
  {
    if Has(e[1..], x) {
      var i :| 0 <= i < |e[1..]| && e[1..][i].0 == x;
      assert e[i + 1].0 == x;
    }
    if i :| 0 <= i < |e| && e[i].0 == x { assert i > 0 ==> e[1..][i - 1].0 == x; }
  }

  /** Distinct keys, in the order of first occurrence. */
  predicate InOrder(e: Entries, details: seq<Row>, key: string) {
    forall i, j :: 0 <= i < j < |e| ==> FirstWith(details, key, e[i].0) < FirstWith(details, key, e[j].0)
  }

  /** Each entry holds the last row's columns. */
  predicate HoldsLast(e: Entries, details: seq<Row>, key: string) {
    forall i :: 0 <= i < |e| ==> e[i].1 == LastWith(details, key, e[i].0) && FirstWith(details, key, e[i].0) < |details|
  }

  ghost predicate MissesNone(e: Entries, details: seq<Row>, key: string) {
    forall k :: FirstWith(details, key, k) < |details| ==> Has(e, k)
  }

  lemma OneDetailMore(details: seq<Row>, key: string, k: Value)
    requires |details| > 0
    ensures var init, last := details[..|details| - 1], details[|details| - 1];
            && FirstWith(details, key, k) == (if FirstWith(init, key, k) < |init| then FirstWith(init, key, k)
                                              else if Get(last, key) == k then |init| else |details|)
            && LastWith(details, key, k) == if Get(last, key) == k then last else LastWith(init, key, k)
  {}

  /** The sub-objects a root is given: distinct by key, in the order of first occurrence, each with the
      columns of its last row; and none is missing. */
  lemma {:induction false} KeyedIs(details: seq<Row>, key: string)
    ensures var e := Keyed(details, key);
            InOrder(e, details, key) && HoldsLast(e, details, key) && MissesNone(e, details, key)
  {
    if |details| == 0 { return; }
    hide InOrder, HoldsLast, MissesNone, Put;
    var init, last := details[..|details| - 1], details[|details| - 1];
    KeyedIs(init, key);
    KeyedStep(details, key, Keyed(init, key), Get(last, key));
  }

  lemma KeyedStep(details: seq<Row>, key: string, e: Entries, k: Value)
    requires |details| > 0 && k == Get(details[|details| - 1], key)
    requires var init := details[..|details| - 1];
             InOrder(e, init, key) && HoldsLast(e, init, key) && MissesNone(e, init, key)
    ensures var f := Put(e, k, details[|details| - 1]);
            InOrder(f, details, key) && HoldsLast(f, details, key) && MissesNone(f, details, key)
  {
    hide FirstWith, LastWith, Put;
    var init, d := details[..|details| - 1], details[|details| - 1];
    forall i | 0 <= i < |e|
      ensures FirstWith(details, key, e[i].0) == FirstWith(init, key, e[i].0)
      ensures LastWith(details, key, e[i].0) == if e[i].0 == k then d else e[i].1
    {
      OneDetailMore(details, key, e[i].0);
    }
    assert KeysDiffer(e) by {
      forall i, j | 0 <= i < j < |e| ensures e[i].0 != e[j].0 {
        assert FirstWith(init, key, e[i].0) < FirstWith(init, key, e[j].0);
      }
    }
    PutReplacesOrAppends(e, k, d);
    OneDetailMore(details, key, k);
    forall x | FirstWith(details, key, x) < |details| ensures Has(Put(e, k, d), x) {
      OneDetailMore(details, key, x);
      HasAfterPut(e, k, d, x);
    }
    if Has(e, k) { KeyedReplaced(details, key, e, k); } else { KeyedAppended(details, key, e, k); }
  }

  lemma KeyedReplaced(details: seq<Row>, key: string, e: Entries, k: Value)
    requires |details| > 0 && k == Get(details[|details| - 1], key) && Has(e, k) && KeysDiffer(e)
    requires var init := details[..|details| - 1]; InOrder(e, init, key) && HoldsLast(e, init, key)
    requires forall i ::
             0 <= i < |e| ==> FirstWith(details, key, e[i].0) == FirstWith(details[..|details| - 1], key, e[i].0)
    requires forall i ::
             0 <= i < |e| ==> LastWith(details, key, e[i].0) == if e[i].0 == k then details[|details| - 1] else e[i].1
    ensures var f := Put(e, k, details[|details| - 1]);
            InOrder(f, details, key) && HoldsLast(f, details, key)
  {
    hide FirstWith, LastWith, Put;
    var d := details[|details| - 1];
    PutReplacesOrAppends(e, k, d);
    var p :| 0 <= p < |e| && e[p].0 == k;
    var f := Put(e, k, d);
    assert f == e[p := (k, d)];
    assert forall i :: 0 <= i < |f| ==> f[i].0 == e[i].0;
  }

  lemma KeyedAppended(details: seq<Row>, key: string, e: Entries, k: Value)
    requires |details| > 0 && k == Get(details[|details| - 1], key) && !Has(e, k) && KeysDiffer(e)
    requires FirstWith(details[..|details| - 1], key, k) == |details| - 1
    requires var init := details[..|details| - 1]; InOrder(e, init, key) && HoldsLast(e, init, key)
    requires forall i ::
             0 <= i < |e| ==> FirstWith(details, key, e[i].0) == FirstWith(details[..|details| - 1], key, e[i].0)
    requires forall i ::
             0 <= i < |e| ==> LastWith(details, key, e[i].0) == if e[i].0 == k then details[|details| - 1] else e[i].1
    ensures var f := Put(e, k, details[|details| - 1]);
            InOrder(f, details, key) && HoldsLast(f, details, key)
  {
    hide FirstWith, LastWith, Put;
    var d := details[|details| - 1];
    PutReplacesOrAppends(e, k, d);
    var f := Put(e, k, d);
    assert f == e + [(k, d)];
    OneDetailMore(details, key, k);
  }
}

/** What the plain group-by of `Grouping` says, in terms of the rows. */
module GroupingMeaning {
  import opened Grouping

  /** Null, zero and the empty text count as nothing. */
  lemma DetailIsThere(row: Row, prefix: string)
    ensures forall c :: c in Detail(row, prefix) <==> prefix + c in row
    ensures forall c :: c in Detail(row, prefix) ==> Detail(row, prefix)[c] == row[prefix + c]
    ensures Present(Detail(row, prefix))
            <==> exists c :: prefix + c in row && row[prefix + c] != Null && row[prefix + c] != Num(0)
                             && row[prefix + c] != Text("")
  {
    NamesAre(row, prefix);
    var detail := Detail(row, prefix);
    if Present(detail) {
      var c :| c in detail && Truthy(detail[c]);
      assert prefix + c in row && row[prefix + c] != Null;
    }
    if c :| prefix + c in row && row[prefix + c] != Null && row[prefix + c] != Num(0) && row[prefix + c] != Text("") {
      assert c in detail && Truthy(detail[c]);
    }
  }

  /** The roots are the first rows of their groups, in row order. */
  lemma {:induction false} RootsAre(ids: seq<Value>, m: nat)
    requires m <= |ids|
    ensures forall k, l :: 0 <= k < l < |Roots(ids, m)| ==> Roots(ids, m)[k] < Roots(ids, m)[l]
    ensures forall i :: i in Roots(ids, m) <==> 0 <= i < m && IsRoot(ids, i)
  {
    if m == 0 {
    } else {
      hide IsRoot;
      RootsAre(ids, m - 1);
      var before := Roots(ids, m - 1);
      forall k | 0 <= k < |before| ensures before[k] < m - 1 { assert before[k] in before; }
    }
  }

  lemma IsRootWhen(rows: seq<Row>, groupIdKey: string, i: nat)
    requires i < |rows|
    ensures IsRoot(Ids(rows, groupIdKey), i) <==> IsFirst(rows, groupIdKey, i)
  {
    var ids := Ids(rows, groupIdKey);
    if IsRoot(ids, i) {
      forall j | 0 <= j < i ensures Get(rows[j], groupIdKey) != Get(rows[i], groupIdKey) {
        assert ids[..i][j] == ids[j];
      }
    }
  }

  /** No earlier row has the same group id. */
  ghost predicate IsFirst(rows: seq<Row>, groupIdKey: string, i: nat)
    requires i < |rows|
  {
    forall j :: 0 <= j < i ==> Get(rows[j], groupIdKey) != Get(rows[i], groupIdKey)
  }

  ghost predicate HasSub(rows: seq<Row>, ids: seq<Value>, id: Value, prefix: string, i: nat)
    requires i < |rows| == |ids|
  {
    ids[i] == id && Present(Detail(rows[i], prefix))
  }

  /** The rows at these places, in order and all of them, have the sub-objects. */
  ghost predicate Picks(at: seq<nat>, ds: seq<Row>, rows: seq<Row>, ids: seq<Value>, id: Value, prefix: string, m: nat)
    requires m <= |rows| == |ids|
  {
    && |at| == |ds|
    && (forall k :: 0 <= k < |at| ==> at[k] < m && ds[k] == Detail(rows[at[k]], prefix))
    && (forall k, l :: 0 <= k < l < |at| ==> at[k] < at[l])
    && (forall i :: i in at <==> 0 <= i < m && HasSub(rows, ids, id, prefix, i))
  }

  /** The sub-objects of a group are those of its rows that have one, in row order. */
  lemma {:induction false} DetailsAre(rows: seq<Row>, ids: seq<Value>, id: Value, prefix: string, m: nat)
          returns (at: seq<nat>)
    requires m <= |rows| == |ids|
    ensures Picks(at, Details(rows, ids, id, prefix, m), rows, ids, id, prefix, m)
  {
    if m == 0 {
      at := [];
    } else {
      hide Detail, Present, Picks;
      at := DetailsAre(rows, ids, id, prefix, m - 1);
      if HasSub(rows, ids, id, prefix, m - 1) {
        PicksOneMore(at, Details(rows, ids, id, prefix, m - 1), rows, ids, id, prefix, m - 1);
        at := at + [m - 1];
      } else {
        PicksNoMore(at, Details(rows, ids, id, prefix, m - 1), rows, ids, id, prefix, m - 1);
      }
    }
  }

  lemma PicksOneMore(at: seq<nat>, ds: seq<Row>, rows: seq<Row>, ids: seq<Value>, id: Value, prefix: string, m: nat)
    requires m < |rows| == |ids| && Picks(at, ds, rows, ids, id, prefix, m) && HasSub(rows, ids, id, prefix, m)
    ensures Picks(at + [m], ds + [Detail(rows[m], prefix)], rows, ids, id, prefix, m + 1)
  {
    hide Detail, HasSub;
  }

  lemma PicksNoMore(at: seq<nat>, ds: seq<Row>, rows: seq<Row>, ids: seq<Value>, id: Value, prefix: string, m: nat)
    requires m < |rows| == |ids| && Picks(at, ds, rows, ids, id, prefix, m) && !HasSub(rows, ids, id, prefix, m)
    ensures Picks(at, ds, rows, ids, id, prefix, m + 1)
  {
    hide Detail, HasSub;
  }

  /** A group's fields, when the options have different ones: none for an option without sub-shown, all
      sub-objects that are distinct by the option's key if it asks for an array, and otherwise the last. */
  lemma {:induction false} FieldsAre(rows: seq<Row>, ids: seq<Value>, id: Value, options: seq<Options>, j: nat)
    requires |rows| == |ids| && j < |options|
    requires forall i, k :: 0 <= i < k < |options| ==> options[i].fieldName != options[k].fieldName
    ensures var opt, fields := options[j], Fields(rows, ids, id, options);
            var ds := Details(rows, ids, id, opt.prefix, |rows|);
            && (opt.fieldName in fields <==> ds != [])
            && (ds != [] && opt.isArray ==> fields[opt.fieldName] == Subs(Values(Keyed(ds, opt.key))))
            && (ds != [] && !opt.isArray ==> fields[opt.fieldName] == Sub(ds[|ds| - 1]))
  {
    hide Details, Keyed, Values;
    var init, last := options[..|options| - 1], options[|options| - 1];
    if j < |options| - 1 {
      FieldsAre(rows, ids, id, init, j);
    } else {
      NotAmong(rows, ids, id, init, last.fieldName);
    }
  }

  lemma {:induction false} NotAmong(rows: seq<Row>, ids: seq<Value>, id: Value, options: seq<Options>, name: string)
    requires |rows| == |ids| && forall i :: 0 <= i < |options| ==> options[i].fieldName != name
    ensures name !in Fields(rows, ids, id, options)
  {
    if |options| == 0 {
    } else {
      NotAmong(rows, ids, id, options[..|options| - 1], name);
    }
  }

  /** A row's own columns, which no option takes, with the fields laid over them. */
  ghost predicate Overlays(shown: Row, row: Row, fields: Row, options: seq<Options>) {
    && (forall c :: c in fields ==> c in shown && shown[c] == fields[c])
    && (forall c :: c !in fields ==>
          (c in shown <==> c in row && forall j :: 0 <= j < |options| ==> !(options[j].prefix <= c)))
    && (forall c :: c !in fields && c in shown ==> shown[c] == row[c])
  }

  lemma OwnOverlaid(row: Row, fields: Row, options: seq<Options>)
    ensures Overlays(Own(row, options) + fields, row, fields, options)
  {}

  /** The objects returned: for the first row of each group its own columns and the group's fields. */
  lemma GroupedAre(rows: seq<Row>, groupIdKey: string, options: seq<Options>) returns (roots: seq<nat>)
    ensures var result, ids := Grouped(rows, groupIdKey, options), Ids(rows, groupIdKey);
            && |result| == |roots|
            && (forall k, l :: 0 <= k < l < |roots| ==> roots[k] < roots[l])
            && (forall i :: i in roots <==> 0 <= i < |rows| && IsFirst(rows, groupIdKey, i))
            && (forall k :: 0 <= k < |roots| ==>
                  roots[k] < |rows|
                  && Overlays(result[k], rows[roots[k]],
                              Fields(rows, ids, Get(rows[roots[k]], groupIdKey), options), options))
  {
    hide Fields, Own, Overlays, IsFirst, IsRoot, Roots;
    var ids := Ids(rows, groupIdKey);
    roots := Roots(ids, |ids|);
    RootsAre(ids, |ids|);
    forall i | 0 <= i < |rows| ensures IsRoot(ids, i) <==> IsFirst(rows, groupIdKey, i) {
      IsRootWhen(rows, groupIdKey, i);
    }
    forall k | 0 <= k < |roots|
      ensures roots[k] < |rows|
      ensures Overlays(Grouped(rows, groupIdKey, options)[k], rows[roots[k]],
                       Fields(rows, ids, Get(rows[roots[k]], groupIdKey), options), options)
    {
      assert roots[k] in roots;
      OwnOverlaid(rows[roots[k]], Fields(rows, ids, Get(rows[roots[k]], groupIdKey), options), options);
    }
  }
}

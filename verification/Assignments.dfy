/**
 Reading a bound statement back: which columns its lists name, and which value stands for which column.
 The reader knows nothing of how the statements are generated.
 */
module Assignments {
  import opened Option
  import opened NamedParams
  import opened ParamMeaning
  import opened Statements

  // ---------------------------------------------------------------- a reader of statements

  /** What follows the given text. */
  function AfterText(ps: seq<Piece>, text: string): (rest: Option<seq<Piece>>)
    ensures rest.Some? ==> |rest.value| + |text| == |ps|
  {
    if Literal(text) <= ps then Some(ps[|text|..]) else None
  }

  /** A name up to its closing backquote, and what follows that. */
  function ReadName(ps: seq<Piece>): (r: Option<(string, seq<Piece>)>)
    ensures r.Some? ==> |r.value.1| < |ps|
  {
    if ps == [] || ps[0].Val? then None
    else if ps[0].c == '`' then Some(("", ps[1..]))
    else
      match ReadName(ps[1..])
      case None => None
      case Some((name, rest)) => Some(([ps[0].c] + name, rest))
  }

  /** A name between backquotes. */
  function ReadQuoted(ps: seq<Piece>): (r: Option<(string, seq<Piece>)>)
    ensures r.Some? ==> |r.value.1| < |ps|
  {
    var rest := AfterText(ps, "`");
    if rest.None? then None else ReadName(rest.value)
  }

  /** A list of columns. */
  function ReadColumns(ps: seq<Piece>): Option<seq<string>>
    decreases |ps|
  {
    match ReadQuoted(ps)
    case None => None
    case Some((name, rest)) =>
      if rest == [] then Some([name])
      else
        var more := AfterText(rest, ", ");
        if more.None? || |more.value| >= |ps| then None
        else match ReadColumns(more.value) case None => None case Some(names) => Some([name] + names)
  }

  /** A list of values. */
  function ReadValues(ps: seq<Piece>): Option<seq<Value>>
    decreases |ps|
  {
    if ps == [] || ps[0].Lit? then None
    else if ps[1..] == [] then Some([ps[0].v])
    else
      var more := AfterText(ps[1..], ", ");
      if more.None? then None
      else match ReadValues(more.value) case None => None case Some(values) => Some([ps[0].v] + values)
  }

  /** A list of assignments: a column, an equals sign, its value. */
  function ReadSet(ps: seq<Piece>): Option<seq<(string, Value)>>
    decreases |ps|
  {
    match ReadQuoted(ps)
    case None => None
    case Some((name, rest)) =>
      var right := AfterText(rest, " = ");
      if right.None? || right.value == [] || right.value[0].Lit? then None
      else if right.value[1..] == [] then Some([(name, right.value[0].v)])
      else
        var more := AfterText(right.value[1..], ",\n");
        if more.None? then None
        else match ReadSet(more.value) case None => None case Some(others) => Some([(name, right.value[0].v)] + others)
  }

  // ---------------------------------------------------------------- reading what was written

  predicate Unquoted(s: string) {
    '`' !in s
  }

  lemma LiteralJoin(a: string, b: string)
    ensures Literal(a + b) == Literal(a) + Literal(b)
  {}

  lemma ReadsText(text: string, rest: seq<Piece>)
    ensures AfterText(Literal(text) + rest, text) == Some(rest)
  {}

  lemma {:induction false} ReadsName(name: string, rest: seq<Piece>)
    requires Unquoted(name)
    ensures ReadName(Literal(name) + (Literal("`") + rest)) == Some((name, rest))
  {
    var ps := Literal(name) + (Literal("`") + rest);
    if name == "" {
      assert ps[0] == Lit('`') && ps[1..] == rest;
    } else {
      ReadsName(name[1..], rest);
      assert ps[0] == Lit(name[0]) && ps[1..] == Literal(name[1..]) + (Literal("`") + rest);
      assert name[0] != '`' && [name[0]] + name[1..] == name;
    }
  }

  /** The column, and everything that follows it. */
  lemma ReadsQuoted(name: string, rest: seq<Piece>)
    requires Unquoted(name)
    ensures ReadQuoted(Literal("`" + name + "`") + rest) == Some((name, rest))
  {
    hide ReadName;
    LiteralJoin("`" + name, "`");
    LiteralJoin("`", name);
    assert Literal("`" + name + "`") + rest == Literal("`") + (Literal(name) + (Literal("`") + rest));
    ReadsText("`", Literal(name) + (Literal("`") + rest));
    ReadsName(name, rest);
  }

  lemma {:induction false} ReadsColumns(cols: seq<string>)
    requires |cols| > 0 && forall i :: 0 <= i < |cols| ==> Unquoted(cols[i])
    ensures ReadColumns(Literal(Join(Quoted(cols), ", "))) == Some(cols)
  {
    hide ReadQuoted;
    var first, rest := "`" + cols[0] + "`", Quoted(cols)[1..];
    if |cols| == 1 {
      ReadsQuoted(cols[0], []);
      assert Literal(first) + [] == Literal(first);
      assert cols == [cols[0]];
    } else {
      assert rest == Quoted(cols[1..]);
      ReadsColumns(cols[1..]);
      var more := Literal(Join(rest, ", "));
      LiteralJoin(first + ", ", Join(rest, ", "));
      LiteralJoin(first, ", ");
      assert Literal(Join(Quoted(cols), ", ")) == Literal(first) + (Literal(", ") + more);
      ReadsQuoted(cols[0], Literal(", ") + more);
      ReadsText(", ", more);
      assert |Literal(first)| > 0;
      assert cols == [cols[0]] + cols[1..];
    }
  }

  lemma FilledSql(text: string, rest: seq<Part>, values: map<string, Value>)
    requires Fillable([Sql(text)] + rest, values)
    ensures Fillable(rest, values) && Filled([Sql(text)] + rest, values) == Literal(text) + Filled(rest, values)
  {
    var all := [Sql(text)] + rest;
    assert all[1..] == rest && forall p :: p in rest ==> p in all;
  }

  lemma FilledHole(name: string, rest: seq<Part>, values: map<string, Value>)
    requires Fillable([Hole(name)] + rest, values)
    ensures Fillable(rest, values) && name in values
    ensures Filled([Hole(name)] + rest, values) == [Val(Encode(values[name]))] + Filled(rest, values)
  {
    var all := [Hole(name)] + rest;
    assert all[0] in all && all[1..] == rest && forall p :: p in rest ==> p in all;
  }

  /** The first item of a filled list, and what follows it. */
  lemma ListFirst(items: seq<Item>, separator: string, tail: seq<Part>, values: map<string, Value>)
    requires |items| > 0 && Fillable(Listed(items, separator, tail), values)
    ensures items[0].name in values
    ensures |items| == 1 ==> Fillable(tail, values)
    ensures |items| > 1 ==> Fillable(Listed(items[1..], separator, tail), values)
    ensures Filled(Listed(items, separator, tail), values)
            == Literal(items[0].target)
               + ([Val(Encode(values[items[0].name]))]
                  + if |items| == 1 then Filled(tail, values)
                    else Literal(separator) + Filled(Listed(items[1..], separator, tail), values))
  {
    hide Filled, Fillable;
    var rest := if |items| == 1 then tail else [Sql(separator)] + Listed(items[1..], separator, tail);
    FilledSql(items[0].target, [Hole(items[0].name)] + rest, values);
    FilledHole(items[0].name, rest, values);
    if |items| > 1 { FilledSql(separator, Listed(items[1..], separator, tail), values); }
  }

  /** A list of generated items with its values, in front of anything. */
  function Shown(items: seq<Item>, separator: string, values: map<string, Value>): seq<Piece>
    requires forall i :: 0 <= i < |items| ==> items[i].name in values
  {
    if |items| == 0 then []
    else
      var item := Literal(items[0].target) + [Val(Encode(values[items[0].name]))];
      if |items| == 1 then item else item + (Literal(separator) + Shown(items[1..], separator, values))
  }

  lemma {:induction false} ListThenTail(items: seq<Item>, separator: string, tail: seq<Part>,
          values: map<string, Value>)
    requires Fillable(Listed(items, separator, tail), values)
    ensures Fillable(tail, values) && forall i :: 0 <= i < |items| ==> items[i].name in values
    ensures Filled(Listed(items, separator, tail), values) == Shown(items, separator, values) + Filled(tail, values)
  {
    if |items| == 0 {
    } else {
      hide Filled, Fillable, Listed, Literal, Encode;
      ListFirst(items, separator, tail, values);
      if |items| > 1 {
        ListThenTail(items[1..], separator, tail, values);
        forall i | 0 <= i < |items| ensures items[i].name in values {
          if i > 0 { assert items[i] == items[1..][i - 1]; }
        }
      }
    }
  }

  predicate Pairs(pairs: seq<(string, Value)>, cols: seq<string>, values: map<string, Value>) {
    && |pairs| == |cols|
    && forall k :: 0 <= k < |cols| ==> cols[k] in values && pairs[k] == (cols[k], Encode(values[cols[k]]))
  }

  /** One assignment, the last of its list or in front of others. */
  lemma ReadsAssignment(col: string, v: Value, more: Option<seq<Piece>>)
    requires Unquoted(col)
    ensures ReadSet(Literal("`" + col + "` = ") + ([Val(v)] + if more.Some? then Literal(",\n") + more.value else []))
            == if more.None? then Some([(col, v)])
               else match ReadSet(more.value) case None => None case Some(others) => Some([(col, v)] + others)
  {
    hide ReadQuoted;
    var right := [Val(v)] + if more.Some? then Literal(",\n") + more.value else [];
    var ps := Literal("`" + col + "` = ") + right;
    assert "`" + col + "` = " == ("`" + col + "`") + " = ";
    LiteralJoin("`" + col + "`", " = ");
    assert ps == Literal("`" + col + "`") + (Literal(" = ") + right);
    ReadsQuoted(col, Literal(" = ") + right);
    ReadsText(" = ", right);
    if more.Some? {
      assert right[1..] == Literal(",\n") + more.value;
      ReadsText(",\n", more.value);
    } else {
      assert right[1..] == [];
    }
  }

  lemma {:induction false} ReadsSet(cols: seq<string>, values: map<string, Value>) returns (pairs: seq<(string, Value)>)
    requires |cols| > 0 && Covers(values, cols) && forall i :: 0 <= i < |cols| ==> Unquoted(cols[i])
    ensures ReadSet(Shown(Assignments(cols), ",\n", values)) == Some(pairs) && Pairs(pairs, cols, values)
  {
    hide ReadSet, Encode, Literal;
    var v := Encode(values[cols[0]]);
    ShownFirst(Assignments(cols), ",\n", values);
    if |cols| == 1 {
      ReadsAssignment(cols[0], v, None);
      pairs := [(cols[0], v)];
    } else {
      assert Assignments(cols)[1..] == Assignments(cols[1..]);
      ReadsAssignment(cols[0], v, Some(Shown(Assignments(cols[1..]), ",\n", values)));
      var others := ReadsSet(cols[1..], values);
      pairs := [(cols[0], v)] + others;
    }
  }

  lemma ShownFirst(items: seq<Item>, separator: string, values: map<string, Value>)
    requires |items| > 0 && forall i :: 0 <= i < |items| ==> items[i].name in values
    ensures Shown(items, separator, values)
            == Literal(items[0].target)
               + ([Val(Encode(values[items[0].name]))]
                  + if |items| == 1 then [] else Literal(separator) + Shown(items[1..], separator, values))
  {}

  lemma ReadsValue(v: Value, more: Option<seq<Piece>>)
    ensures ReadValues([Val(v)] + if more.Some? then Literal(", ") + more.value else [])
            == if more.None? then Some([v])
               else match ReadValues(more.value) case None => None case Some(others) => Some([v] + others)
  {
    var ps := [Val(v)] + if more.Some? then Literal(", ") + more.value else [];
    if more.Some? {
      assert ps[1..] == Literal(", ") + more.value;
      ReadsText(", ", more.value);
    } else {
      assert ps[1..] == [];
    }
  }

  lemma {:induction false} ReadsValues(cols: seq<string>, values: map<string, Value>)
    requires |cols| > 0 && Covers(values, cols)
    ensures ReadValues(Shown(Placeholders(cols), ", ", values)) == Some(Own(cols, values))
  {
    hide ReadValues, Encode;
    var v := Encode(values[cols[0]]);
    var ps := Shown(Placeholders(cols), ", ", values);
    ShownFirst(Placeholders(cols), ", ", values);
    assert Literal("") == [];
    if |cols| == 1 {
      ReadsValue(v, None);
      assert ps == [Val(v)] + [];
      assert cols[1..] == [] && Own(cols, values) == [v] + [] == [v];
    } else {
      assert Placeholders(cols)[1..] == Placeholders(cols[1..]);
      var more := Shown(Placeholders(cols[1..]), ", ", values);
      assert ps == [Val(v)] + (Literal(", ") + more);
      ReadsValue(v, Some(more));
      ReadsValues(cols[1..], values);
      assert Own(cols, values) == [v] + Own(cols[1..], values);
    }
  }

  lemma NamesAreUnquoted(cols: seq<string>)
    requires AreNames(cols)
    ensures forall i :: 0 <= i < |cols| ==> Unquoted(cols[i])
  {
    forall i | 0 <= i < |cols| ensures Unquoted(cols[i]) { assert forall c :: c in cols[i] ==> IsWordChar(c); }
  }

  // ---------------------------------------------------------------- what the statements say

  /** The database is sent an UPDATE of the table whose list gives each of the columns its own value, in
      order and nothing else, for the row with the model's id. */
  lemma UpdateAssigns(table: string, cols: seq<string>, values: map<string, Value>)
          returns (list: seq<Piece>, pairs: seq<(string, Value)>)
    requires |cols| > 0
    requires Plain(table) && AreNames(cols) && DistinctIgnoringCase(cols + ["id"]) && Covers(values, cols + ["id"])
    ensures "id" in values
    ensures Sent(UpdateText(table, cols), cols + ["id"], values)
            == Some(Literal("UPDATE `" + table + "`\nSET\n")
                    + (list + (Literal("\nWHERE id = ") + ([Val(Encode(values["id"]))] + Literal("\n")))))
    ensures ReadSet(list) == Some(pairs) && Pairs(pairs, cols, values)
  {
    hide Sent, Filled, UpdateText, Shown, ReadSet;
    UpdateBinds(table, cols, values);
    assert forall i :: 0 <= i < |cols| ==> (cols + ["id"])[i] == cols[i];
    var end := [Sql("\nWHERE id = ")] + ([Hole("id")] + ([Sql("\n")] + []));
    FilledSql("UPDATE `" + table + "`\nSET\n", Listed(Assignments(cols), ",\n", end), values);
    ListThenTail(Assignments(cols), ",\n", end, values);
    FilledSql("\nWHERE id = ", [Hole("id")] + ([Sql("\n")] + []), values);
    FilledHole("id", [Sql("\n")] + [], values);
    FilledSql("\n", [], values);
    NothingFilled(values);
    NamesAreUnquoted(cols);
    list := Shown(Assignments(cols), ",\n", values);
    pairs := ReadsSet(cols, values);
  }

  lemma NothingFilled(values: map<string, Value>)
    ensures Filled([], values) == []
    ensures forall s: string :: Literal(s) + [] == Literal(s)
  {}

  /** What an INSERT with the given tail reads as: a list of columns, and the list of their values. */
  lemma InsertShows(table: string, cols: seq<string>, ignore: bool, tail: seq<Part>, values: map<string, Value>)
          returns (names: seq<Piece>, list: seq<Piece>)
    requires |cols| > 0 && AreNames(cols) && Covers(values, cols)
    requires Fillable(InsertParts(table, cols, ignore, tail), values)
    ensures Fillable(tail, values)
    ensures Filled(InsertParts(table, cols, ignore, tail), values)
            == Literal("INSERT " + (if ignore then "IGNORE" else "") + " INTO `" + table + "`\n( ")
               + (names + (Literal(" )\nVALUES (\n") + (list + (Literal("\n)") + Filled(tail, values)))))
    ensures ReadColumns(names) == Some(cols) && ReadValues(list) == Some(Own(cols, values))
  {
    hide Filled, Shown, ReadColumns, ReadValues;
    var head := "INSERT " + (if ignore then "IGNORE" else "") + " INTO `" + table + "`\n( ";
    names, list := Literal(Join(Quoted(cols), ", ")), Shown(Placeholders(cols), ", ", values);
    assert InsertHead(table, cols, ignore) == head + Join(Quoted(cols), ", ") + " )\nVALUES (\n";
    LiteralJoin(head + Join(Quoted(cols), ", "), " )\nVALUES (\n");
    LiteralJoin(head, Join(Quoted(cols), ", "));
    FilledSql(InsertHead(table, cols, ignore), Listed(Placeholders(cols), ", ", [Sql("\n)")] + tail), values);
    ListThenTail(Placeholders(cols), ", ", [Sql("\n)")] + tail, values);
    FilledSql("\n)", tail, values);
    NamesAreUnquoted(cols);
    ReadsColumns(cols);
    ReadsValues(cols, values);
  }

  /** The database is sent an INSERT that names the columns in order and gives each its own value. */
  lemma InsertAssigns(table: string, cols: seq<string>, values: map<string, Value>)
          returns (names: seq<Piece>, list: seq<Piece>)
    requires |cols| > 0
    requires Plain(table) && AreNames(cols) && DistinctIgnoringCase(cols) && Covers(values, cols)
    ensures Sent(InsertText(table, cols, false), cols, values)
            == Some(Literal("INSERT  INTO `" + table + "`\n( ")
                    + (names + (Literal(" )\nVALUES (\n") + (list + Literal("\n)")))))
    ensures ReadColumns(names) == Some(cols) && ReadValues(list) == Some(Own(cols, values))
    ensures forall k :: 0 <= k < |cols| ==>
              k < |Own(cols, values)| && Own(cols, values)[k] == Encode(values[cols[k]])
  {
    hide Sent, Filled, InsertText, ReadColumns, ReadValues, Own, Encode;
    InsertBinds(table, cols, false, values);
    names, list := InsertShows(table, cols, false, [], values);
    NothingFilled(values);
    OwnAt(cols, values);
    assert "INSERT " + "" + " INTO `" + table + "`\n( " == "INSERT  INTO `" + table + "`\n( ";
  }

  /** An upsert inserts as above, and on a duplicate key gives each update column the merged object's
      value, in order and nothing else; with no column to update a duplicate is ignored. */
  lemma UpsertAssigns(table: string, insertCols: seq<string>, updateCols: seq<string>, keys: seq<string>,
          values: map<string, Value>)
          returns (names: seq<Piece>, list: seq<Piece>, update: seq<Piece>, pairs: seq<(string, Value)>)
    requires |insertCols| > 0 && Plain(table) && AreNames(insertCols) && AreNames(updateCols)
    requires AreNames(keys) && DistinctIgnoringCase(keys) && Covers(values, keys)
    requires (forall i :: 0 <= i < |insertCols| ==> insertCols[i] in keys)
             && (forall i :: 0 <= i < |updateCols| ==> updateCols[i] in keys)
    ensures Covers(values, insertCols) && Covers(values, updateCols)
    ensures Sent(UpsertText(table, insertCols, updateCols), keys, values)
            == Some(Literal("INSERT " + (if updateCols == [] then "IGNORE" else "") + " INTO `" + table + "`\n( ")
                    + (names + (Literal(" )\nVALUES (\n") + (list + (Literal("\n)") + update)))))
    ensures ReadColumns(names) == Some(insertCols) && ReadValues(list) == Some(Own(insertCols, values))
    ensures if updateCols == [] then update == []
            else exists others :: update == Literal("\nON DUPLICATE KEY UPDATE\n") + (others + Literal("\n"))
                                && ReadSet(others) == Some(pairs) && Pairs(pairs, updateCols, values)
  {
    hide Sent, Filled, UpsertText, ReadColumns, ReadValues, Own, Encode, Shown, ReadSet;
    UpsertBinds(table, insertCols, updateCols, keys, values);
    pairs := [];
    if |updateCols| > 0 {
      var tail := [Sql("\nON DUPLICATE KEY UPDATE\n")] + Listed(Assignments(updateCols), ",\n", [Sql("\n")] + []);
      names, list := InsertShows(table, insertCols, false, tail, values);
      update := Filled(tail, values);
      FilledSql("\nON DUPLICATE KEY UPDATE\n", Listed(Assignments(updateCols), ",\n", [Sql("\n")] + []), values);
      ListThenTail(Assignments(updateCols), ",\n", [Sql("\n")] + [], values);
      FilledSql("\n", [], values);
      NothingFilled(values);
      NamesAreUnquoted(updateCols);
      pairs := ReadsSet(updateCols, values);
    } else {
      names, list := InsertShows(table, insertCols, true, [], values);
      update := [];
      NothingFilled(values);
    }
  }
}

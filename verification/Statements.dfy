/**
 The INSERT, UPDATE and upsert statements that the models generate
 (src/lib/base-models/advanced-sql.model.ts and base-sql.model.ts) and what they become once
 `paramExecute` has bound them.
 */
module Statements {
  import opened Option
  import opened NamedParams
  import opened ParamMeaning
  import opened Sequences

  // ---------------------------------------------------------------- text, as the models write it

  function Join(parts: seq<string>, separator: string): string {
    if |parts| == 0 then "" else if |parts| == 1 then parts[0] else parts[0] + separator + Join(parts[1..], separator)
  }

  function Quoted(cols: seq<string>): seq<string> {
    seq(|cols|, i requires 0 <= i < |cols| => "`" + cols[i] + "`")
  }

  /** One entry of a generated list: `@name`, or an assignment with its target text in front. */
  datatype Item = Item(target: string, name: string)

  function ItemText(item: Item): string {
    item.target + ("@" + item.name)
  }

  function ItemTexts(items: seq<Item>): (texts: seq<string>)
    ensures |texts| == |items|
  {
    seq(|items|, i requires 0 <= i < |items| => ItemText(items[i]))
  }

  function Placeholders(cols: seq<string>): (items: seq<Item>)
    ensures |items| == |cols|
  {
    seq(|cols|, i requires 0 <= i < |cols| => Item("", cols[i]))
  }

  function Assignments(cols: seq<string>): (items: seq<Item>)
    ensures |items| == |cols|
  {
    seq(|cols|, i requires 0 <= i < |cols| => Item("`" + cols[i] + "` = ", cols[i]))
  }

  function InsertHead(table: string, cols: seq<string>, ignore: bool): string {
    "INSERT " + (if ignore then "IGNORE" else "") + " INTO `" + table + "`\n( " + Join(Quoted(cols), ", ")
      + " )\nVALUES (\n"
  }

  function InsertText(table: string, cols: seq<string>, ignore: bool): string {
    InsertHead(table, cols, ignore) + (Join(ItemTexts(Placeholders(cols)), ", ") + "\n)")
  }

  function UpdateText(table: string, cols: seq<string>): string {
    "UPDATE `" + table + "`\nSET\n" + (Join(ItemTexts(Assignments(cols)), ",\n") + ("\nWHERE id = " + ("@id" + "\n")))
  }

  function UpsertText(table: string, insertCols: seq<string>, updateCols: seq<string>): string {
    if |updateCols| > 0 then
      InsertText(table, insertCols, false)
      + ("\nON DUPLICATE KEY UPDATE\n" + (Join(ItemTexts(Assignments(updateCols)), ",\n") + "\n"))
    else InsertText(table, insertCols, true)
  }

  // ---------------------------------------------------------------- statements with a hole per value

  datatype Part = Sql(text: string) | Hole(name: string)

  /** The query text: a hole is written `@name`. */
  function Written(parts: seq<Part>): string {
    if parts == [] then ""
    else if parts[0].Sql? then parts[0].text + Written(parts[1..])
    else ("@" + parts[0].name) + Written(parts[1..])
  }

  function Literal(s: string): seq<Piece> {
    seq(|s|, i requires 0 <= i < |s| => Lit(s[i]))
  }

  /** The statement the database should see: every hole filled with the value of that very column. */
  function Filled(parts: seq<Part>, values: map<string, Value>): seq<Piece>
    requires forall p :: p in parts && p.Hole? ==> p.name in values
  {
    if parts == [] then []
    else if parts[0].Sql? then Literal(parts[0].text) + Filled(parts[1..], values)
    else [Val(Encode(values[parts[0].name]))] + Filled(parts[1..], values)
  }

  predicate Plain(s: string) {
    '@' !in s && '?' !in s
  }

  predicate Spaced(s: string) {
    s != "" && !IsWordChar(s[0]) && exists i :: 0 <= i < |s| && IsSpace(s[i])
  }

  /** Text holds no parameter and no marker, and a hole is followed by text that ends its name and
      its word. */
  predicate WellShaped(parts: seq<Part>, keys: seq<string>) {
    parts == []
    || (WellShaped(parts[1..], keys)
        && match parts[0]
           case Sql(t) => Plain(t)
           case Hole(c) => c in keys && IsName(c) && Follows(parts[1..]))
  }

  /** Text that may follow a hole. */
  predicate Follows(tail: seq<Part>) {
    tail == [] || (tail[0].Sql? && Spaced(tail[0].text))
  }

  /** The list of items with a separator in between, in front of `tail`. */
  function Listed(items: seq<Item>, separator: string, tail: seq<Part>): seq<Part> {
    if |items| == 0 then tail
    else
      var rest := if |items| == 1 then tail else [Sql(separator)] + Listed(items[1..], separator, tail);
      [Sql(items[0].target)] + ([Hole(items[0].name)] + rest)
  }

  function InsertParts(table: string, cols: seq<string>, ignore: bool, tail: seq<Part>): seq<Part> {
    [Sql(InsertHead(table, cols, ignore))] + Listed(Placeholders(cols), ", ", [Sql("\n)")] + tail)
  }

  function UpdateParts(table: string, cols: seq<string>): seq<Part> {
    [Sql("UPDATE `" + table + "`\nSET\n")]
    + Listed(Assignments(cols), ",\n", [Sql("\nWHERE id = ")] + ([Hole("id")] + ([Sql("\n")] + [])))
  }

  function UpsertParts(table: string, insertCols: seq<string>, updateCols: seq<string>): seq<Part> {
    if |updateCols| > 0 then
      InsertParts(table, insertCols, false,
                  [Sql("\nON DUPLICATE KEY UPDATE\n")] + Listed(Assignments(updateCols), ",\n", [Sql("\n")] + []))
    else InsertParts(table, insertCols, true, [])
  }

  // ---------------------------------------------------------------- a well-shaped query binds correctly

  function Scanned(parts: seq<Part>, keys: seq<string>): seq<Token> {
    if parts == [] then []
    else if parts[0].Sql? then Characters(parts[0].text) + Scanned(parts[1..], keys)
    else [Param(Find(keys, parts[0].name))] + Scanned(parts[1..], keys)
  }

  function Characters(s: string): (ts: seq<Token>)
    ensures |ts| == |s| && forall i :: 0 <= i < |s| ==> ts[i] == Ch(s[i])
  {
    seq(|s|, i requires 0 <= i < |s| => Ch(s[i]))
  }

  /** Plain text in front does not disturb the scan of what follows. */
  lemma {:induction false} TokensAfterPlain(s: string, rest: string, keys: seq<string>)
    requires '@' !in s
    ensures Tokens(s + rest, keys) == Characters(s) + Tokens(rest, keys)
  {
    if s == "" {
      assert s + rest == rest;
    } else {
      assert (s + rest)[1..] == s[1..] + rest;
      TokensAfterPlain(s[1..], rest, keys);
      assert Characters(s) == [Ch(s[0])] + Characters(s[1..]);
    }
  }

  lemma FindOwn(keys: seq<string>, name: string)
    requires name in keys && DistinctIgnoringCase(keys)
    ensures Find(keys, name) < |keys| && keys[Find(keys, name)] == name
  {
    var i :| 0 <= i < |keys| && keys[i] == name;
    assert SameIgnoringCase(keys[i], name);
  }

  lemma TokensAtHole(name: string, rest: string, keys: seq<string>)
    requires IsName(name) && name in keys && DistinctIgnoringCase(keys) && (rest != "" ==> !IsWordChar(rest[0]))
    ensures Tokens("@" + name + rest, keys) == [Param(Find(keys, name))] + Tokens(rest, keys)
  {
    var q := "@" + name + rest;
    assert q[1..] == name + rest;
    RunIs(name + rest, |name|);
    assert (name + rest)[..|name|] == name && (name + rest)[|name|..] == rest;
    FindOwn(keys, name);
  }

  lemma {:induction false} ScanOfWritten(parts: seq<Part>, keys: seq<string>)
    requires DistinctIgnoringCase(keys) && WellShaped(parts, keys)
    ensures Tokens(Written(parts), keys) == Scanned(parts, keys)
  {
    if parts != [] {
      var rest := parts[1..];
      ScanOfWritten(rest, keys);
      if parts[0].Sql? {
        TokensAfterPlain(parts[0].text, Written(rest), keys);
      } else {
        if rest != [] { assert Written(rest)[0] == rest[0].text[0]; }
        TokensAtHole(parts[0].name, Written(rest), keys);
        assert Written(parts) == "@" + parts[0].name + Written(rest);
      }
    }
  }

  lemma {:induction false} PlainKeepsOrder(s: string, last: int, rest: seq<Token>)
    requires WordsInKeyOrder(rest, -1)
    requires (exists i :: 0 <= i < |s| && IsSpace(s[i])) || last == -1
    ensures WordsInKeyOrder(Characters(s) + rest, last)
  {
    if s == "" {
      assert Characters(s) + rest == rest;
    } else {
      var all := Characters(s) + rest;
      assert all[0] == Ch(s[0]) && all[1..] == Characters(s[1..]) + rest;
      if !IsSpace(s[0]) && last != -1 {
        var i :| 0 <= i < |s| && IsSpace(s[i]);
        assert IsSpace(s[1..][i - 1]);
      }
      PlainKeepsOrder(s[1..], if IsSpace(s[0]) then -1 else last, rest);
    }
  }

  lemma {:induction false} WellShapedIsInKeyOrder(parts: seq<Part>, keys: seq<string>)
    requires WellShaped(parts, keys)
    ensures WordsInKeyOrder(Scanned(parts, keys), -1)
  {
    if parts != [] {
      var rest := parts[1..];
      WellShapedIsInKeyOrder(rest, keys);
      if parts[0].Sql? {
        PlainKeepsOrder(parts[0].text, -1, Scanned(rest, keys));
      } else if rest != [] {
        WellShapedIsInKeyOrder(rest[1..], keys);
        PlainKeepsOrder(rest[0].text, Find(keys, parts[0].name), Scanned(rest[1..], keys));
        assert Scanned(parts, keys)[1..] == Scanned(rest, keys);
      } else {
        assert Scanned(parts, keys)[1..] == [];
      }
    }
  }

  lemma {:induction false} WrittenHasNoMark(parts: seq<Part>, keys: seq<string>)
    requires WellShaped(parts, keys)
    ensures '?' !in Written(parts)
  {
    if parts == [] {
    } else {
      WrittenHasNoMark(parts[1..], keys);
    }
  }

  lemma {:induction false} HolesAreKeys(parts: seq<Part>, keys: seq<string>)
    requires WellShaped(parts, keys)
    ensures forall p :: p in parts && p.Hole? ==> p.name in keys
  {
    if parts == [] {
    } else {
      HolesAreKeys(parts[1..], keys);
      assert parts == [parts[0]] + parts[1..];
    }
  }

  lemma {:induction false} SubstituteConcat(a: seq<Token>, b: seq<Token>, keys: seq<string>, values: map<string, Value>)
    requires Covers(values, keys)
    requires forall i :: 0 <= i < |a| && a[i].Param? ==> a[i].key < |keys|
    requires forall i :: 0 <= i < |b| && b[i].Param? ==> b[i].key < |keys|
    ensures forall i :: 0 <= i < |a + b| && (a + b)[i].Param? ==> (a + b)[i].key < |keys|
    ensures Substitute(a + b, keys, values) == Substitute(a, keys, values) + Substitute(b, keys, values)
  {
    if a == [] {
      assert a + b == b;
    } else {
      SubstituteConcat(a[1..], b, keys, values);
      assert (a + b)[0] == a[0] && (a + b)[1..] == a[1..] + b;
    }
  }

  lemma {:induction false} SubstituteCharacters(s: string, keys: seq<string>, values: map<string, Value>)
    requires Covers(values, keys)
    ensures Substitute(Characters(s), keys, values) == Literal(s)
  {
    if s == "" {
    } else {
      SubstituteCharacters(s[1..], keys, values);
      assert Characters(s)[1..] == Characters(s[1..]);
    }
  }

  lemma {:induction false} SubstituteScanned(parts: seq<Part>, keys: seq<string>, values: map<string, Value>)
    requires DistinctIgnoringCase(keys) && Covers(values, keys) && WellShaped(parts, keys)
    requires forall p :: p in parts && p.Hole? ==> p.name in values
    ensures forall i ::
            0 <= i < |Scanned(parts, keys)| && Scanned(parts, keys)[i].Param? ==> Scanned(parts, keys)[i].key < |keys|
    ensures Substitute(Scanned(parts, keys), keys, values) == Filled(parts, values)
  {
    if parts != [] {
      var rest := parts[1..];
      SubstituteScanned(rest, keys, values);
      if parts[0].Sql? {
        SubstituteConcat(Characters(parts[0].text), Scanned(rest, keys), keys, values);
        SubstituteCharacters(parts[0].text, keys, values);
      } else {
        FindOwn(keys, parts[0].name);
        assert Scanned(parts, keys)[1..] == Scanned(rest, keys);
      }
    }
  }

  /** What the database receives for a query text. */
  function Sent(q: string, keys: seq<string>, values: map<string, Value>): Option<seq<Piece>>
    requires Covers(values, keys)
  {
    Bind(ReplaceFirst(q, keys, |keys|), BoundValues(Split(q), keys, values))
  }

  lemma WellShapedBinds(parts: seq<Part>, keys: seq<string>, values: map<string, Value>)
    requires AreNames(keys) && DistinctIgnoringCase(keys) && Covers(values, keys) && WellShaped(parts, keys)
    ensures forall p :: p in parts && p.Hole? ==> p.name in values
    ensures Sent(Written(parts), keys, values) == Some(Filled(parts, values))
  {
    HolesAreKeys(parts, keys);
    WrittenHasNoMark(parts, keys);
    ScanOfWritten(parts, keys);
    WellShapedIsInKeyOrder(parts, keys);
    BindingIsSubstitution(Written(parts), keys, values);
    SubstituteScanned(parts, keys, values);
  }

  // ---------------------------------------------------------------- the three statements

  lemma {:induction false} PlainJoin(parts: seq<string>, separator: string)
    requires Plain(separator) && forall i :: 0 <= i < |parts| ==> Plain(parts[i])
    ensures Plain(Join(parts, separator))
  {
    if |parts| <= 1 {
    } else {
      PlainJoin(parts[1..], separator);
    }
  }

  lemma NamesArePlain(cols: seq<string>)
    requires AreNames(cols)
    ensures forall i :: 0 <= i < |cols| ==> Plain(cols[i])
    ensures Plain(Join(Quoted(cols), ", "))
  {
    forall i | 0 <= i < |cols| ensures Plain(Quoted(cols)[i]) && Plain(cols[i]) {
      assert forall c :: c in cols[i] ==> IsWordChar(c);
    }
    PlainJoin(Quoted(cols), ", ");
  }

  lemma ConsSql(text: string, rest: seq<Part>, keys: seq<string>)
    requires Plain(text) && WellShaped(rest, keys)
    ensures WellShaped([Sql(text)] + rest, keys) && Written([Sql(text)] + rest) == text + Written(rest)
  {
    assert ([Sql(text)] + rest)[1..] == rest;
  }

  lemma ConsHole(name: string, rest: seq<Part>, keys: seq<string>)
    requires name in keys && IsName(name) && WellShaped(rest, keys) && Follows(rest)
    ensures WellShaped([Hole(name)] + rest, keys) && Written([Hole(name)] + rest) == ("@" + name) + Written(rest)
  {
    assert ([Hole(name)] + rest)[1..] == rest;
  }

  predicate Bindable(items: seq<Item>, keys: seq<string>) {
    forall i :: 0 <= i < |items| ==> Plain(items[i].target) && IsName(items[i].name) && items[i].name in keys
  }

  /** A generated list reads as the join of its items and is well shaped. */
  lemma {:induction false} ListReads(items: seq<Item>, separator: string, tail: seq<Part>, keys: seq<string>)
    requires Bindable(items, keys) && Plain(separator) && Spaced(separator)
    requires WellShaped(tail, keys) && Follows(tail)
    ensures WellShaped(Listed(items, separator, tail), keys)
    ensures Written(Listed(items, separator, tail)) == Join(ItemTexts(items), separator) + Written(tail)
  {
    if |items| == 0 {
    } else {
      var rest := if |items| == 1 then tail else [Sql(separator)] + Listed(items[1..], separator, tail);
      if |items| > 1 {
        ListReads(items[1..], separator, tail, keys);
        ConsSql(separator, Listed(items[1..], separator, tail), keys);
        assert ItemTexts(items)[1..] == ItemTexts(items[1..]);
        Assoc(ItemText(items[0]) + separator, Join(ItemTexts(items[1..]), separator), Written(tail));
        Assoc(ItemText(items[0]), separator, Join(ItemTexts(items[1..]), separator) + Written(tail));
      }
      ConsHole(items[0].name, rest, keys);
      ConsSql(items[0].target, [Hole(items[0].name)] + rest, keys);
      Assoc(items[0].target, "@" + items[0].name, Written(rest));
    }
  }

  lemma GeneratedItems(cols: seq<string>, keys: seq<string>)
    requires AreNames(cols) && forall i :: 0 <= i < |cols| ==> cols[i] in keys
    ensures Bindable(Placeholders(cols), keys) && Bindable(Assignments(cols), keys)
  {
    NamesArePlain(cols);
    assert Plain("`") && Plain("` = ");
  }

  lemma CommaSeparates()
    ensures Spaced(", ") && Plain(", ")
  {
    assert IsSpace(", "[1]);
  }

  lemma CommaLineSeparates()
    ensures Spaced(",\n") && Plain(",\n")
  {
    assert IsSpace(",\n"[1]);
  }

  lemma ParenthesisSeparates()
    ensures Spaced("\n)") && Plain("\n)")
  {
    assert IsSpace("\n)"[0]);
  }

  lemma LineSeparates()
    ensures Spaced("\n") && Plain("\n")
  {
    assert IsSpace("\n"[0]);
  }

  lemma WhereSeparates()
    ensures Spaced("\nWHERE id = ") && Plain("\nWHERE id = ")
  {
    assert IsSpace("\nWHERE id = "[0]);
  }

  lemma Separators()
    ensures Spaced(", ") && Spaced(",\n") && Spaced("\n)") && Spaced("\n") && Spaced("\nWHERE id = ")
    ensures Plain(", ") && Plain(",\n") && Plain("\n)") && Plain("\n") && Plain("\nWHERE id = ")
    ensures Plain("\nON DUPLICATE KEY UPDATE\n") && IsName("id")
  {
    assert Plain("\nON DUPLICATE KEY UPDATE\n") && IsName("id");
    hide Spaced, Plain, IsName;
    CommaSeparates();
    CommaLineSeparates();
    ParenthesisSeparates();
    LineSeparates();
    WhereSeparates();
  }

  lemma HeadIsPlain(table: string, cols: seq<string>, ignore: bool)
    requires Plain(table) && AreNames(cols)
    ensures Plain(InsertHead(table, cols, ignore))
  {
    NamesArePlain(cols);
    assert Plain("INSERT " + (if ignore then "IGNORE" else "") + " INTO `") && Plain("`\n( ")
      && Plain(" )\nVALUES (\n");
  }

  lemma ListBetween(head: string, items: seq<Item>, separator: string, tail: seq<Part>, keys: seq<string>)
    requires Plain(head) && Bindable(items, keys) && Plain(separator) && Spaced(separator)
    requires WellShaped(tail, keys) && Follows(tail)
    ensures WellShaped([Sql(head)] + Listed(items, separator, tail), keys)
    ensures Written([Sql(head)] + Listed(items, separator, tail))
            == head + (Join(ItemTexts(items), separator) + Written(tail))
  {
    ListReads(items, separator, tail, keys);
    ConsSql(head, Listed(items, separator, tail), keys);
  }

  lemma InsertReads(table: string, cols: seq<string>, ignore: bool, tail: seq<Part>, keys: seq<string>)
    requires Plain(table) && AreNames(cols) && forall i :: 0 <= i < |cols| ==> cols[i] in keys
    requires WellShaped(tail, keys)
    ensures WellShaped(InsertParts(table, cols, ignore, tail), keys)
    ensures Written(InsertParts(table, cols, ignore, tail)) == InsertText(table, cols, ignore) + Written(tail)
  {
    Separators();
    GeneratedItems(cols, keys);
    HeadIsPlain(table, cols, ignore);
    ConsSql("\n)", tail, keys);
    ListBetween(InsertHead(table, cols, ignore), Placeholders(cols), ", ", [Sql("\n)")] + tail, keys);
    Regroup(InsertHead(table, cols, ignore), Join(ItemTexts(Placeholders(cols)), ", "), "\n)", Written(tail));
  }

  lemma Regroup(a: string, b: string, c: string, d: string)
    ensures a + (b + (c + d)) == (a + (b + c)) + d
  {}

  lemma NothingWritten()
    ensures Written([]) == "" && forall s: string :: s + "" == s
  {}

  /** INSERT: the statement sent is the statement written, every column position holding that
      column's own value. */
  lemma InsertBinds(table: string, cols: seq<string>, ignore: bool, values: map<string, Value>)
    requires Plain(table) && AreNames(cols) && DistinctIgnoringCase(cols) && Covers(values, cols)
    ensures forall p :: p in InsertParts(table, cols, ignore, []) && p.Hole? ==> p.name in values
    ensures Sent(InsertText(table, cols, ignore), cols, values)
            == Some(Filled(InsertParts(table, cols, ignore, []), values))
  {
    InsertReads(table, cols, ignore, [], cols);
    NothingWritten();
    WellShapedBinds(InsertParts(table, cols, ignore, []), cols, values);
  }

  /** UPDATE: every assigned column gets its own value and the WHERE clause the model's id. */
  lemma UpdateBinds(table: string, cols: seq<string>, values: map<string, Value>)
    requires Plain(table) && AreNames(cols) && DistinctIgnoringCase(cols + ["id"]) && Covers(values, cols + ["id"])
    ensures forall p :: p in UpdateParts(table, cols) && p.Hole? ==> p.name in values
    ensures Sent(UpdateText(table, cols), cols + ["id"], values) == Some(Filled(UpdateParts(table, cols), values))
  {
    hide Spaced, Sent, Filled, WellShaped;
    var keys := cols + ["id"];
    Separators();
    assert AreNames(keys) && "id" == keys[|cols|];
    assert forall i :: 0 <= i < |cols| ==> keys[i] == cols[i];
    GeneratedItems(cols, keys);
    NothingWritten();
    ConsSql("\n", [], keys);
    ConsHole("id", [Sql("\n")] + [], keys);
    ConsSql("\nWHERE id = ", [Hole("id")] + ([Sql("\n")] + []), keys);
    assert Plain("UPDATE `" + table + "`\nSET\n") by { assert Plain("UPDATE `") && Plain("`\nSET\n"); }
    ListBetween("UPDATE `" + table + "`\nSET\n", Assignments(cols), ",\n",
                [Sql("\nWHERE id = ")] + ([Hole("id")] + ([Sql("\n")] + [])), keys);
    assert "@" + "id" == "@id";
    WellShapedBinds(UpdateParts(table, cols), keys, values);
  }

  /** Upsert: with the merged object as values, both the insert list and the update list give every
      column the value the merged object holds for it. */
  lemma UpsertBinds(table: string, insertCols: seq<string>, updateCols: seq<string>, keys: seq<string>,
          values: map<string, Value>)
    requires Plain(table) && AreNames(insertCols) && AreNames(updateCols)
    requires AreNames(keys) && DistinctIgnoringCase(keys) && Covers(values, keys)
    requires (forall i :: 0 <= i < |insertCols| ==> insertCols[i] in keys)
             && (forall i :: 0 <= i < |updateCols| ==> updateCols[i] in keys)
    ensures forall p :: p in UpsertParts(table, insertCols, updateCols) && p.Hole? ==> p.name in values
    ensures Sent(UpsertText(table, insertCols, updateCols), keys, values)
            == Some(Filled(UpsertParts(table, insertCols, updateCols), values))
  {
    NothingWritten();
    Separators();
    if |updateCols| > 0 {
      GeneratedItems(updateCols, keys);
      ConsSql("\n", [], keys);
      ListBetween("\nON DUPLICATE KEY UPDATE\n", Assignments(updateCols), ",\n", [Sql("\n")] + [], keys);
      InsertReads(table, insertCols, false,
                  [Sql("\nON DUPLICATE KEY UPDATE\n")]
                    + Listed(Assignments(updateCols), ",\n", [Sql("\n")] + []), keys);
    } else {
      InsertReads(table, insertCols, true, [], keys);
    }
    WellShapedBinds(UpsertParts(table, insertCols, updateCols), keys, values);
  }

  // ---------------------------------------------------------------- what the statements carry

  /** The values a bound statement carries, in order. */
  function Carried(ps: seq<Piece>): seq<Value> {
    if ps == [] then [] else if ps[0].Val? then [ps[0].v] + Carried(ps[1..]) else Carried(ps[1..])
  }

  /** The model's own values of the columns, in column order. */
  function Own(cols: seq<string>, values: map<string, Value>): seq<Value>
    requires Covers(values, cols)
  {
    if |cols| == 0 then [] else [Encode(values[cols[0]])] + Own(cols[1..], values)
  }

  lemma {:induction false} CarriedAfterText(text: string, rest: seq<Piece>)
    ensures Carried(Literal(text) + rest) == Carried(rest)
  {
    if text == "" {
      assert Literal(text) + rest == rest;
    } else {
      CarriedAfterText(text[1..], rest);
      var all := Literal(text) + rest;
      assert all[0] == Lit(text[0]) && all[1..] == Literal(text[1..]) + rest;
    }
  }

  ghost predicate Fillable(parts: seq<Part>, values: map<string, Value>) {
    forall p :: p in parts && p.Hole? ==> p.name in values
  }

  lemma CarriedSql(text: string, rest: seq<Part>, values: map<string, Value>)
    requires Fillable([Sql(text)] + rest, values)
    ensures Fillable(rest, values) && Carried(Filled([Sql(text)] + rest, values)) == Carried(Filled(rest, values))
  {
    var all := [Sql(text)] + rest;
    assert forall p :: p in rest ==> p in all;
    assert all[1..] == rest;
    CarriedAfterText(text, Filled(rest, values));
  }

  lemma CarriedHole(name: string, rest: seq<Part>, values: map<string, Value>)
    requires Fillable([Hole(name)] + rest, values)
    ensures name in values && Fillable(rest, values)
    ensures Carried(Filled([Hole(name)] + rest, values)) == [Encode(values[name])] + Carried(Filled(rest, values))
  {
    var all := [Hole(name)] + rest;
    assert all[0] in all && forall p :: p in rest ==> p in all;
    assert all[1..] == rest;
    var filled := Filled(all, values);
    assert filled[0] == Val(Encode(values[name])) && filled[1..] == Filled(rest, values);
  }

  lemma {:induction false} CarriedList(items: seq<Item>, cols: seq<string>, separator: string, tail: seq<Part>,
          values: map<string, Value>)
    requires |items| == |cols| && forall i :: 0 <= i < |cols| ==> items[i].name == cols[i]
    requires Fillable(Listed(items, separator, tail), values) && Covers(values, cols)
    ensures Fillable(tail, values)
    ensures Carried(Filled(Listed(items, separator, tail), values)) == Own(cols, values) + Carried(Filled(tail, values))
  {
    if |items| == 0 {
    } else {
      var rest := if |items| == 1 then tail else [Sql(separator)] + Listed(items[1..], separator, tail);
      CarriedSql(items[0].target, [Hole(items[0].name)] + rest, values);
      CarriedHole(items[0].name, rest, values);
      if |items| > 1 {
        CarriedSql(separator, Listed(items[1..], separator, tail), values);
        CarriedList(items[1..], cols[1..], separator, tail, values);
      }
    }
  }

  /** The bound INSERT carries exactly the columns' own values, in column order. */
  lemma InsertCarries(table: string, cols: seq<string>, ignore: bool, tail: seq<Part>, values: map<string, Value>)
    requires Fillable(InsertParts(table, cols, ignore, tail), values) && Covers(values, cols)
    ensures Fillable(tail, values)
    ensures Carried(Filled(InsertParts(table, cols, ignore, tail), values))
            == Own(cols, values) + Carried(Filled(tail, values))
  {
    CarriedSql(InsertHead(table, cols, ignore), Listed(Placeholders(cols), ", ", [Sql("\n)")] + tail), values);
    CarriedList(Placeholders(cols), cols, ", ", [Sql("\n)")] + tail, values);
    CarriedSql("\n)", tail, values);
  }

  /** The bound UPDATE carries the assigned columns' values in order and last, for WHERE, the id. */
  lemma UpdateCarries(table: string, cols: seq<string>, values: map<string, Value>)
    requires Fillable(UpdateParts(table, cols), values) && Covers(values, cols)
    ensures "id" in values
    ensures Carried(Filled(UpdateParts(table, cols), values)) == Own(cols, values) + [Encode(values["id"])]
  {
    var end := [Sql("\n")] + [];
    CarriedSql("UPDATE `" + table + "`\nSET\n",
      Listed(Assignments(cols), ",\n", [Sql("\nWHERE id = ")] + ([Hole("id")] + end)), values);
    CarriedList(Assignments(cols), cols, ",\n", [Sql("\nWHERE id = ")] + ([Hole("id")] + end), values);
    CarriedSql("\nWHERE id = ", [Hole("id")] + end, values);
    CarriedHole("id", end, values);
    CarriedSql("\n", [], values);
  }

  /** The bound upsert carries the insert columns' values and then the update columns' values; a
      column in both lists carries the same value twice. */
  lemma UpsertCarries(table: string, insertCols: seq<string>, updateCols: seq<string>, values: map<string, Value>)
    requires Fillable(UpsertParts(table, insertCols, updateCols), values)
    requires Covers(values, insertCols) && Covers(values, updateCols)
    ensures Carried(Filled(UpsertParts(table, insertCols, updateCols), values))
            == Own(insertCols, values) + Own(updateCols, values)
  {
    if |updateCols| > 0 {
      var list := Listed(Assignments(updateCols), ",\n", [Sql("\n")] + []);
      var head := "\nON DUPLICATE KEY UPDATE\n";
      InsertCarries(table, insertCols, false, [Sql(head)] + list, values);
      CarriedSql(head, list, values);
      CarriedList(Assignments(updateCols), updateCols, ",\n", [Sql("\n")] + [], values);
      CarriedSql("\n", [], values);
    } else {
      InsertCarries(table, insertCols, true, [], values);
    }
  }

  /** Upsert runs on one object, the update model copied over the insert model. Every update column then
      carries the update model's value, and every insert column the insert model's exactly when both
      models send the same value for every column they share. */
  lemma UpsertCarriesOwnExactlyWhen(insertCols: seq<string>, updateCols: seq<string>, insertModel: map<string, Value>,
          updateModel: map<string, Value>)
    requires Covers(insertModel, insertCols) && Covers(updateModel, updateCols)
    ensures Own(updateCols, insertModel + updateModel) == Own(updateCols, updateModel)
    ensures Own(insertCols, insertModel + updateModel) == Own(insertCols, insertModel)
            <==> forall c :: c in insertCols && c in updateModel ==> Encode(insertModel[c]) == Encode(updateModel[c])
  {
    hide Own, Encode;
    var merged := insertModel + updateModel;
    OwnAt(updateCols, merged);
    OwnAt(updateCols, updateModel);
    OwnAt(insertCols, merged);
    OwnAt(insertCols, insertModel);
    if Own(insertCols, merged) == Own(insertCols, insertModel) {
      forall c | c in insertCols && c in updateModel ensures Encode(insertModel[c]) == Encode(updateModel[c]) {
        var k :| 0 <= k < |insertCols| && insertCols[k] == c;
        assert Own(insertCols, merged)[k] == Own(insertCols, insertModel)[k];
      }
    }
  }

  lemma {:induction false} OwnAt(cols: seq<string>, values: map<string, Value>)
    requires Covers(values, cols)
    ensures |Own(cols, values)| == |cols|
            && forall k :: 0 <= k < |cols| ==> Own(cols, values)[k] == Encode(values[cols[k]])
  {
    if |cols| == 0 {
    } else {
      OwnAt(cols[1..], values);
      assert forall k :: 1 <= k < |cols| ==> Own(cols, values)[k] == Own(cols[1..], values)[k - 1];
    }
  }
}

/**
 The query compiler of src/lib/database/mysql.ts: a query that names its parameters
 (`@name`) is turned into a query with positional `?` markers and a list of values.

 Strings are sequences of characters; the regular expressions the source builds are
 written out as predicates on the text.
 */
module NamedParams {
  import opened Option

  // ---------------------------------------------------------------- characters

  predicate IsWordChar(c: char) {
    'a' <= c <= 'z' || 'A' <= c <= 'Z' || '0' <= c <= '9' || c == '_'
  }

  /** The characters matched by `\s`. */
  predicate IsSpace(c: char) {
    c == ' ' || '\t' <= c <= '\r' || c == '\U{a0}' || c == '\U{1680}' || '\U{2000}' <= c <= '\U{200a}'
    || c == '\U{2028}' || c == '\U{2029}' || c == '\U{202f}' || c == '\U{205f}' || c == '\U{3000}' || c == '\U{feff}'
  }

  function Lower(c: char): char {
    if 'A' <= c <= 'Z' then (c as int + 32) as char else c
  }

  predicate SameIgnoringCase(a: string, b: string) {
    |a| == |b| && forall i :: 0 <= i < |a| ==> Lower(a[i]) == Lower(b[i])
  }

  /** A parameter name: at least one character, word characters only. */
  predicate IsName(k: string) {
    |k| > 0 && forall i :: 0 <= i < |k| ==> IsWordChar(k[i])
  }

  predicate AreNames(keys: seq<string>) {
    forall i :: 0 <= i < |keys| ==> IsName(keys[i])
  }

  predicate DistinctIgnoringCase(keys: seq<string>) {
    forall i, j :: 0 <= i < j < |keys| ==> !SameIgnoringCase(keys[i], keys[j])
  }

  // ---------------------------------------------------------------- values

  /** A parameter value: `Arr` holds the string form of its items, whether the first item is
      a plain object, and the JSON text of the whole array. */
  datatype Value =
    | Null
    | Text(text: string)
    | Num(n: int)
    | Obj(json: string)
    | Arr(items: seq<string>, ofObjects: bool, json: string)

  function JoinComma(items: seq<string>): string {
    if |items| == 0 then ""
    else if |items| == 1 then items[0]
    else items[0] + "," + JoinComma(items[1..])
  }

  /** Array values are replaced by text (or null when empty) in the caller's object. */
  function Flatten(v: Value): Value {
    if v.Arr? then
      if |v.items| > 0 && v.ofObjects then Text(v.json)
      else if JoinComma(v.items) == "" then Null else Text(JoinComma(v.items))
    else v
  }

  /** What is handed to the database for a value. */
  function Encode(v: Value): Value {
    var f := Flatten(v);
    if f.Obj? then Text(f.json) else f
  }

  // ---------------------------------------------------------------- the regular expressions

  /** `@key\b`, ignoring case, matches at the start of `s`. */
  predicate MatchAt(s: string, key: string) {
    && |s| > |key|
    && s[0] == '@'
    && SameIgnoringCase(s[1..1 + |key|], key)
    && (|s| == 1 + |key| || !IsWordChar(s[1 + |key|]))
  }

  /** `word.match(re)`: the expression matches somewhere in `s`. */
  predicate HasMatch(s: string, key: string) {
    s != "" && (MatchAt(s, key) || HasMatch(s[1..], key))
  }

  /** `query.replace(re, '?')` with the global flag. */
  function ReplaceKey(s: string, key: string): string {
    if s == "" then ""
    else if MatchAt(s, key) then "?" + ReplaceKey(s[1 + |key|..], key)
    else [s[0]] + ReplaceKey(s[1..], key)
  }

  /** The replacements of the first `n` keys, one after the other. */
  function ReplaceFirst(s: string, keys: seq<string>, n: nat): string
    requires n <= |keys|
  {
    if n == 0 then s else ReplaceKey(ReplaceFirst(s, keys, n - 1), keys[n - 1])
  }

  /** `query.split(/\n|\s/)`. */
  function Split(s: string): (words: seq<string>)
    ensures |words| > 0
  {
    if s == "" then [""]
    else
      var rest := Split(s[1..]);
      if IsSpace(s[0]) then [""] + rest else [[s[0]] + rest[0]] + rest[1..]
  }

  predicate Boundary(w: string, b: nat)
    requires b <= |w|
  {
    (b > 0 && IsWordChar(w[b - 1])) != (b < |w| && IsWordChar(w[b]))
  }

  /** `!!x && /@.*\b/.test(x)` on a word, which holds no line break. */
  predicate Candidate(w: string) {
    exists p, b :: 0 <= p < b <= |w| && w[p] == '@' && Boundary(w, b)
  }

  // ---------------------------------------------------------------- the method


  predicate Covers(values: map<string, Value>, keys: seq<string>) {
    forall i :: 0 <= i < |keys| ==> keys[i] in values
  }

  /** What one word contributes: the value of every key among the first `n` that occurs in it, in key order. */
  function WordValues(w: string, keys: seq<string>, n: nat, values: map<string, Value>): seq<Value>
    requires n <= |keys| && Covers(values, keys)
  {
    if n == 0 then []
    else if HasMatch(w, keys[n - 1]) then WordValues(w, keys, n - 1, values) + [Encode(values[keys[n - 1]])]
    else WordValues(w, keys, n - 1, values)
  }

  /** What the words contribute together. */
  function BoundValues(words: seq<string>, keys: seq<string>, values: map<string, Value>): seq<Value>
    requires Covers(values, keys)
  {
    if |words| == 0 then []
    else
      var init, last := BoundValues(words[..|words| - 1], keys, values), words[|words| - 1];
      if Candidate(last) then init + WordValues(last, keys, |keys|, values) else init
  }

  /** `values` after the call: array entries are flattened as soon as one word is looked at. */
  function Flattened(values: map<string, Value>, keys: seq<string>): map<string, Value> {
    map k | k in values :: if k in keys then Flatten(values[k]) else values[k]
  }

  /** Flattening is done once; what is sent for a value is its flattened form, an object as text. */
  lemma FlattenTwice(v: Value)
    ensures Flatten(Flatten(v)) == Flatten(v)
    ensures Encode(v) == if Flatten(v).Obj? then Text(Flatten(v).json) else Flatten(v)
  {}

  lemma FlattenedAll(values: map<string, Value>, keys: seq<string>)
    ensures Flattened(values, keys).Keys == values.Keys
    ensures forall x :: x in values ==> Flattened(values, keys)[x] == if x in keys then Flatten(values[x])
            else values[x]
  {}

  /** The ends of the character ranges: capital letters have their small ones as lower case, letters, digits
      and the underscore make up names, and blanks and line breaks of every kind separate words. */
  lemma Characters()
    ensures Lower('A') == 'a' && Lower('M') == 'm' && Lower('Z') == 'z' && Lower('a') == 'a' && Lower('z') == 'z'
    ensures Lower('@') == '@' && Lower('[') == '[' && Lower('0') == '0' && Lower('_') == '_'
    ensures IsWordChar('A') && IsWordChar('Z') && IsWordChar('a') && IsWordChar('z') && IsWordChar('_')
            && IsWordChar('0') && IsWordChar('9')
    ensures !IsWordChar('@') && !IsWordChar('[') && !IsWordChar('`') && !IsWordChar('{') && !IsWordChar('/')
            && !IsWordChar(':') && !IsWordChar(' ') && !IsWordChar('?') && !IsWordChar('.')
    ensures IsSpace(' ') && IsSpace('\t') && IsSpace('\n') && IsSpace('\U{b}') && IsSpace('\U{c}') && IsSpace('\r')
            && IsSpace('\U{a0}') && IsSpace('\U{1680}') && IsSpace('\U{2000}') && IsSpace('\U{200a}')
            && IsSpace('\U{2028}') && IsSpace('\U{2029}') && IsSpace('\U{202f}') && IsSpace('\U{205f}')
            && IsSpace('\U{3000}') && IsSpace('\U{feff}')
    ensures !IsSpace('\U{8}') && !IsSpace('\U{e}') && !IsSpace('!') && !IsSpace('\U{1fff}') && !IsSpace('\U{200b}')
            && !IsSpace('@') && !IsSpace('a') && !IsSpace('_')
  {}

  /** The items of a text with commas in between; no text has no items. */
  function SplitComma(s: string): (items: seq<string>)
    ensures |items| > 0
  {
    if s == "" then [""]
    else
      var rest := SplitComma(s[1..]);
      if s[0] == ',' then [""] + rest else [[s[0]] + rest[0]] + rest[1..]
  }

  lemma {:induction false} SplitOfItem(item: string, rest: string)
    requires ',' !in item
    ensures SplitComma(item + "," + rest) == [item] + SplitComma(rest)
    ensures SplitComma(item) == [item]
  {
    if item == "" {
      assert item + "," + rest == "," + rest && ("," + rest)[1..] == rest;
    } else {
      SplitOfItem(item[1..], rest);
      assert (item + "," + rest)[1..] == item[1..] + "," + rest;
      assert [item[0]] + item[1..] == item;
    }
  }

  lemma {:induction false} SplitOfJoinComma(items: seq<string>)
    requires |items| > 0 && forall i :: 0 <= i < |items| ==> ',' !in items[i]
    ensures SplitComma(JoinComma(items)) == items
  {
    if |items| == 1 {
      SplitOfItem(items[0], "");
    } else {
      SplitOfJoinComma(items[1..]);
      SplitOfItem(items[0], JoinComma(items[1..]));
      assert items == [items[0]] + items[1..];
    }
  }

  /** What an array is sent as: nothing as null, objects as their JSON text, and anything else as the text
      of its items with commas in between, from which items without commas can be read back; one empty
      item is null too. A single object is sent as its JSON text, everything else as it is. */
  lemma ArrayIsSentAs(v: Value)
    ensures v.Arr? && v.items == [] ==> Encode(v) == Null
    ensures v.Arr? && v.items != [] && v.ofObjects ==> Encode(v) == Text(v.json)
    ensures v.Arr? && v.items == [""] && !v.ofObjects ==> Encode(v) == Null
    ensures v.Arr? && v.items != [] && v.items != [""] && !v.ofObjects
            && (forall i :: 0 <= i < |v.items| ==> ',' !in v.items[i]) ==>
              Encode(v).Text? && SplitComma(Encode(v).text) == v.items
    ensures v.Obj? ==> Encode(v) == Text(v.json)
    ensures !v.Arr? && !v.Obj? ==> Encode(v) == v
  {
    if v.Arr? && v.items != [] && v.items != [""] && !v.ofObjects
       && forall i :: 0 <= i < |v.items| ==> ',' !in v.items[i] {
      SplitOfJoinComma(v.items);
      assert SplitComma("") == [""];
    }
  }

  /** One pass over the keys: arrays are flattened in place and the values the word asks for are collected. */
  method CollectWord(word: string, keys: seq<string>, ghost given: map<string, Value>, values: map<string, Value>)
    returns (found: seq<Value>, after: map<string, Value>)
    requires Covers(given, keys)
    requires values == given || values == Flattened(given, keys)
    ensures found == WordValues(word, keys, |keys|, given)
    ensures after == Flattened(given, keys)
  {
    hide HasMatch, Flatten, Encode;
    found, after := [], values;
    FlattenedAll(given, keys);
    for k := 0 to |keys|
      invariant after.Keys == given.Keys
      invariant forall x :: x in given ==> after[x] == given[x] || (x in keys && after[x] == Flatten(given[x]))
      invariant forall x :: x in keys[..k] ==> after[x] == Flatten(given[x])
      invariant found == WordValues(word, keys, k, given)
    {
      FlattenTwice(given[keys[k]]);
      after := after[keys[k] := Flatten(after[keys[k]])];
      if HasMatch(word, keys[k]) {
        var v := after[keys[k]];
        found := found + [if v.Obj? then Text(v.json) else v];
      }
    }
    assert keys[..|keys|] == keys;
  }

  /** The text and the value list that `paramExecute` sends, and the caller's object afterwards. */
  method ParamExecute(query: string, keys: seq<string>, values: map<string, Value>)
    returns (text: string, bound: seq<Value>, after: map<string, Value>)
    requires Covers(values, keys)
    ensures text == ReplaceFirst(query, keys, |keys|)
    ensures bound == BoundValues(Split(query), keys, values)
    ensures after == if exists w :: w in Split(query) && Candidate(w) then Flattened(values, keys) else values
  {
    bound, after := [], values;
    var words := Split(query);
    ghost var seen := false;
    for w := 0 to |words|
      invariant bound == BoundValues(words[..w], keys, values)
      invariant seen == exists j :: 0 <= j < w && Candidate(words[j])
      invariant after == if seen then Flattened(values, keys) else values
    {
      assert words[..w + 1][..w] == words[..w];
      if Candidate(words[w]) {
        var found;
        found, after := CollectWord(words[w], keys, values, after);
        bound := bound + found;
        seen := true;
      }
    }
    assert words[..|words|] == words;
    text := query;
    for k := 0 to |keys|
      invariant text == ReplaceFirst(query, keys, k)
    {
      text := ReplaceKey(text, keys[k]);
    }
  }
}

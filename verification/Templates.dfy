/**
 `replacePlaceholders` of src/modules/prediction-template/prediction-template.service.ts: every key's
 placeholder is replaced in the whole text, one key after the other, by a global regular expression
 with the escaped placeholder.
 */
module Templates {

  function Placeholder(key: string): string {
    "{{" + key + "}}"
  }

  /** A replacement text as the engine expands it: `$` starts a pattern before another `$`, before `&`
      (the match), a backquote (the text before it) or a quote (the text after it). */
  function Expand(v: string, found: string, before: string, after: string): string {
    if |v| == 0 then ""
    else if |v| >= 2 && v[0] == '$' && v[1] == '$' then "$" + Expand(v[2..], found, before, after)
    else if |v| >= 2 && v[0] == '$' && v[1] == '&' then found + Expand(v[2..], found, before, after)
    else if |v| >= 2 && v[0] == '$' && v[1] == '`' then before + Expand(v[2..], found, before, after)
    else if |v| >= 2 && v[0] == '$' && v[1] == '\'' then after + Expand(v[2..], found, before, after)
    else [v[0]] + Expand(v[1..], found, before, after)
  }

  /** The replacement from position `i` on. */
  function ReplaceFrom(s: string, i: nat, pattern: string, v: string): string
    requires i <= |s| && |pattern| > 0
    decreases |s| - i
  {
    if i == |s| then ""
    else if pattern <= s[i..]
      then Expand(v, pattern, s[..i], s[i + |pattern|..]) + ReplaceFrom(s, i + |pattern|, pattern, v)
    else [s[i]] + ReplaceFrom(s, i + 1, pattern, v)
  }

  type Replacement = (string, string)

  /** The replacements in the order of the entries. */
  function Replaced(template: string, entries: seq<Replacement>): string {
    if |entries| == 0 then template
    else ReplaceFrom(Replaced(template, entries[..|entries| - 1]), 0, Placeholder(entries[|entries| - 1].0),
      entries[|entries| - 1].1)
  }

  method ReplacePlaceholders(template: string, replacements: seq<Replacement>) returns (result: string)
    ensures result == Replaced(template, replacements)
  {
    result := template;
    for i := 0 to |replacements|
      invariant result == Replaced(template, replacements[..i])
    {
      assert replacements[..i + 1][..i] == replacements[..i];
      result := ReplaceFrom(result, 0, Placeholder(replacements[i].0), replacements[i].1);
    }
    assert replacements[..|replacements|] == replacements;
  }

  // ---------------------------------------------------------------- templates as parts

  datatype Part = Lit(text: string) | Ph(key: string)

  function RenderPart(part: Part): string {
    match part
    case Lit(t) => t
    case Ph(k) => Placeholder(k)
  }

  function Render(parts: seq<Part>): string {
    if |parts| == 0 then "" else RenderPart(parts[0]) + Render(parts[1..])
  }

  predicate Free(s: string, c: char) {
    forall i :: 0 <= i < |s| ==> s[i] != c
  }

  predicate KeyText(k: string) {
    Free(k, '{') && Free(k, '}')
  }

  /** No `$` of the value starts a pattern. */
  predicate Fixed(v: string) {
    forall i :: 0 <= i < |v| - 1 && v[i] == '$'
      ==> v[i + 1] != '$' && v[i + 1] != '&' && v[i + 1] != '`' && v[i + 1] != '\''
  }

  /** The pattern starts nowhere in the text, whatever follows the text. */
  predicate Quiet(t: string, pattern: string) {
    forall i :: 0 <= i < |t| ==> !(t[i..] <= pattern) && !(pattern <= t[i..])
  }

  /** The replacement cannot hit the text, or puts back what it takes. */
  predicate Harmless(t: string, e: Replacement) {
    Quiet(t, Placeholder(e.0)) || e.1 == Placeholder(e.0)
  }

  /** Literals that no replacement hits, and keys without braces. */
  predicate Safe(parts: seq<Part>, entries: seq<Replacement>) {
    forall i :: 0 <= i < |parts| ==>
      match parts[i]
      case Lit(t) => forall j :: 0 <= j < |entries| ==> Harmless(t, entries[j])
      case Ph(k) => KeyText(k)
  }

  /** Keys as an object has them, each once, and without braces. */
  predicate Keys(entries: seq<Replacement>) {
    && (forall i :: 0 <= i < |entries| ==> KeyText(entries[i].0))
    && (forall i, j :: 0 <= i < j < |entries| ==> entries[i].0 != entries[j].0)
  }

  /** No value holds a pattern, and none is hit by a later replacement. */
  predicate Usable(entries: seq<Replacement>) {
    && Keys(entries)
    && (forall i :: 0 <= i < |entries| ==> Fixed(entries[i].1))
    && forall i, j :: 0 <= i < j < |entries| ==> Harmless(entries[i].1, entries[j])
  }

  function Fill(part: Part, key: string, v: string): Part {
    if part == Ph(key) then Lit(v) else part
  }

  function FillAll(parts: seq<Part>, key: string, v: string): seq<Part> {
    seq(|parts|, i requires 0 <= i < |parts| => Fill(parts[i], key, v))
  }

  // ---------------------------------------------------------------- one replacement

  lemma {:induction false} ExpandFixed(v: string, found: string, before: string, after: string)
    requires Fixed(v)
    ensures Expand(v, found, before, after) == v
  {
    if |v| == 0 {
    } else {
      assert forall i :: 0 <= i < |v[1..]| ==> v[1..][i] == v[i + 1];
      ExpandFixed(v[1..], found, before, after);
    }
  }

  /** The same replacement on a suffix, for a value that stays as it is. */
  function ReplaceIn(s: string, pattern: string, v: string): string
    requires |pattern| > 0
  {
    if |s| == 0 then ""
    else if pattern <= s then v + ReplaceIn(s[|pattern|..], pattern, v)
    else [s[0]] + ReplaceIn(s[1..], pattern, v)
  }

  lemma Hit(s: string, pattern: string, v: string)
    requires 0 < |pattern| && pattern <= s
    ensures ReplaceIn(s, pattern, v) == v + ReplaceIn(s[|pattern|..], pattern, v)
  {}

  lemma Miss(s: string, pattern: string, v: string)
    requires 0 < |pattern| && |s| > 0 && !(pattern <= s)
    ensures ReplaceIn(s, pattern, v) == [s[0]] + ReplaceIn(s[1..], pattern, v)
  {}

  lemma SuffixOfSuffix(s: string, i: nat, n: nat)
    requires i + n <= |s|
    ensures s[i..][n..] == s[i + n..]
  {}

  lemma HitFrom(s: string, i: nat, pattern: string, v: string)
    requires i < |s| && 0 < |pattern| && pattern <= s[i..] && Fixed(v)
    ensures ReplaceFrom(s, i, pattern, v) == v + ReplaceFrom(s, i + |pattern|, pattern, v)
  {
    ExpandFixed(v, pattern, s[..i], s[i + |pattern|..]);
  }

  lemma MissFrom(s: string, i: nat, pattern: string, v: string)
    requires i < |s| && 0 < |pattern| && !(pattern <= s[i..])
    ensures ReplaceFrom(s, i, pattern, v) == [s[i]] + ReplaceFrom(s, i + 1, pattern, v)
  {}

  lemma AtTheEnd(s: string, pattern: string, v: string)
    requires 0 < |pattern|
    ensures ReplaceFrom(s, |s|, pattern, v) == ReplaceIn(s[|s|..], pattern, v) == ""
  {}

  lemma {:induction false} ReplaceFromIs(s: string, i: nat, pattern: string, v: string)
    requires i <= |s| && |pattern| > 0 && Fixed(v)
    ensures ReplaceFrom(s, i, pattern, v) == ReplaceIn(s[i..], pattern, v)
    decreases |s| - i
  {
    hide ReplaceFrom, ReplaceIn, Fixed;
    if i == |s| {
      AtTheEnd(s, pattern, v);
    } else {
      if pattern <= s[i..] {
        HitFrom(s, i, pattern, v);
        Hit(s[i..], pattern, v);
        SuffixOfSuffix(s, i, |pattern|);
        ReplaceFromIs(s, i + |pattern|, pattern, v);
      } else {
        MissFrom(s, i, pattern, v);
        Miss(s[i..], pattern, v);
        SuffixOfSuffix(s, i, 1);
        ReplaceFromIs(s, i + 1, pattern, v);
      }
    }
  }

  lemma QuietTail(t: string, pattern: string)
    requires |t| > 0 && Quiet(t, pattern)
    ensures Quiet(t[1..], pattern)
  {
    forall i | 0 <= i < |t[1..]| ensures !(t[1..][i..] <= pattern) && !(pattern <= t[1..][i..]) {
      assert t[1..][i..] == t[i + 1..];
    }
  }

  /** Of two texts that start alike one is the start of the other. */
  lemma StartsAlike(t: string, rest: string, pattern: string)
    ensures pattern <= t + rest ==> t <= pattern || pattern <= t
  {
    if pattern <= t + rest {
      if |pattern| <= |t| {
        assert (t + rest)[..|pattern|] == t[..|pattern|];
      } else {
        assert (t + rest)[..|t|] == t && (t + rest)[..|pattern|][..|t|] == t;
      }
    }
  }

  /** A quiet text is passed over. */
  lemma {:induction false} QuietPasses(t: string, rest: string, pattern: string, v: string)
    requires |pattern| > 0 && Quiet(t, pattern)
    ensures ReplaceIn(t + rest, pattern, v) == t + ReplaceIn(rest, pattern, v)
  {
    if |t| == 0 {
      assert t + rest == rest;
    } else {
      hide ReplaceIn;
      assert t[0..] == t;
      StartsAlike(t, rest, pattern);
      Miss(t + rest, pattern, v);
      assert (t + rest)[1..] == t[1..] + rest && t == [t[0]] + t[1..];
      QuietTail(t, pattern);
      QuietPasses(t[1..], rest, pattern, v);
    }
  }

  /** Putting back what was taken changes nothing. */
  lemma {:induction false} PutBack(s: string, pattern: string)
    requires |pattern| > 0
    ensures ReplaceIn(s, pattern, pattern) == s
  {
    if |s| == 0 {
    } else if pattern <= s {
      PutBack(s[|pattern|..], pattern);
    } else {
      PutBack(s[1..], pattern);
    }
  }

  /** Another key's placeholder does not match. */
  lemma OtherKey(key: string, k: string, rest: string)
    requires KeyText(key) && KeyText(k)
    ensures Placeholder(key) <= Placeholder(k) + rest ==> key == k
  {
    var p, s := Placeholder(key), Placeholder(k) + rest;
    assert forall i :: 0 <= i < |key| ==> p[i + 2] == key[i];
    assert forall i :: 0 <= i < |k| ==> s[i + 2] == k[i];
    assert p[|key| + 2] == '}' && s[|k| + 2] == '}';
    assert |key| < |k| ==> s[|key| + 2] == k[|key|];
    assert |k| < |key| ==> p[|k| + 2] == key[|k|];
    assert p <= s ==> forall i :: 0 <= i < |p| ==> p[i] == s[i];
    assert p <= s && |key| == |k| ==> forall i :: 0 <= i < |k| ==> key[i] == k[i];
  }

  /** A text without two opening braces in a row and without one at its end. */
  predicate Inert(t: string) {
    (forall i :: 0 <= i < |t| - 1 ==> !(t[i] == '{' && t[i + 1] == '{')) && (|t| > 0 ==> t[|t| - 1] != '{')
  }

  lemma InertIsQuiet(t: string, key: string)
    requires Inert(t)
    ensures Quiet(t, Placeholder(key))
  {
    var p := Placeholder(key);
    assert p[0] == '{' && p[1] == '{';
    forall i | 0 <= i < |t| ensures !(t[i..] <= p) && !(p <= t[i..]) {
      BracesStart(t[i..], p);
      assert t[i..][0] == t[i] && (i + 1 < |t| ==> t[i..][1] == t[i + 1]);
    }
  }

  lemma BracesStart(s: string, p: string)
    requires |s| > 0 && |p| >= 2 && p[0] == '{' && p[1] == '{'
    ensures s <= p || p <= s ==> s[0] == '{' && (|s| > 1 ==> s[1] == '{')
  {
    if s <= p { assert forall i :: 0 <= i < |s| ==> s[i] == p[i]; }
    if p <= s { assert forall i :: 0 <= i < |p| ==> s[i] == p[i]; }
  }

  /** A placeholder behind its first brace. */
  function Tail(k: string): string {
    ("{" + k) + "}}"
  }

  lemma PlaceholderTail(k: string)
    requires KeyText(k)
    ensures Inert(Tail(k)) && Placeholder(k) == "{" + Tail(k)
  {}

  lemma PlaceholderPasses(k: string, rest: string, key: string, v: string)
    requires KeyText(k) && KeyText(key)
    ensures ReplaceIn(Placeholder(k) + rest, Placeholder(key), v)
            == (if k == key then v else Placeholder(k)) + ReplaceIn(rest, Placeholder(key), v)
  {
    hide ReplaceIn;
    var s, pattern := Placeholder(k) + rest, Placeholder(key);
    if k == key {
      assert pattern <= s && s[|pattern|..] == rest;
      Hit(s, pattern, v);
    } else {
      OtherKey(key, k, rest);
      PlaceholderTail(k);
      InertIsQuiet(Tail(k), key);
      assert s[0] == '{' && s[1..] == Tail(k) + rest;
      Miss(s, pattern, v);
      QuietPasses(Tail(k), rest, pattern, v);
      assert ['{'] + (Tail(k) + ReplaceIn(rest, pattern, v)) == Placeholder(k) + ReplaceIn(rest, pattern, v);
    }
  }

  lemma RenderFirst(parts: seq<Part>)
    requires |parts| > 0
    ensures Render(parts) == RenderPart(parts[0]) + Render(parts[1..])
  {}

  lemma RenderOne(part: Part)
    ensures Render([part]) == RenderPart(part)
  {
    assert [part][1..] == [];
    assert RenderPart(part) + "" == RenderPart(part);
  }

  lemma SafeTail(parts: seq<Part>, entries: seq<Replacement>)
    requires |parts| > 0 && Safe(parts, entries)
    ensures Safe(parts[1..], entries) && Safe([parts[0]], entries)
  {
    assert forall i :: 0 <= i < |parts| - 1 ==> parts[1..][i] == parts[i + 1];
  }

  /** One part: its text is copied, or its placeholder filled. */
  lemma PartPasses(part: Part, rest: string, e: Replacement)
    requires Safe([part], [e]) && KeyText(e.0) && e.1 != Placeholder(e.0)
    ensures ReplaceIn(RenderPart(part) + rest, Placeholder(e.0), e.1)
            == RenderPart(Fill(part, e.0, e.1)) + ReplaceIn(rest, Placeholder(e.0), e.1)
  {
    hide ReplaceIn, Quiet;
    match [part][0] {
      case Lit(t) =>
        assert Harmless(t, [e][0]);
        QuietPasses(t, rest, Placeholder(e.0), e.1);
      case Ph(k) =>
        PlaceholderPasses(k, rest, e.0, e.1);
    }
  }

  lemma FillFirst(parts: seq<Part>, key: string, v: string)
    requires |parts| > 0
    ensures |FillAll(parts, key, v)| == |parts| && FillAll(parts, key, v)[0] == Fill(parts[0], key, v)
    ensures FillAll(parts, key, v)[1..] == FillAll(parts[1..], key, v)
  {}

  /** Replacing one key in the rendered text is filling its placeholders. */
  lemma {:induction false} ReplaceIsFill(parts: seq<Part>, e: Replacement)
    requires Safe(parts, [e]) && KeyText(e.0)
    ensures ReplaceIn(Render(parts), Placeholder(e.0), e.1) == Render(FillAll(parts, e.0, e.1))
  {
    if |parts| == 0 {
    } else if e.1 == Placeholder(e.0) {
      PutBack(Render(parts), e.1);
      FillItself(parts, e.0);
    } else {
      hide *;
      SafeTail(parts, [e]);
      ReplaceIsFill(parts[1..], e);
      RenderFirst(parts);
      PartPasses(parts[0], Render(parts[1..]), e);
      FillFirst(parts, e.0, e.1);
      RenderFirst(FillAll(parts, e.0, e.1));
    }
  }

  lemma {:induction false} FillItself(parts: seq<Part>, key: string)
    ensures Render(FillAll(parts, key, Placeholder(key))) == Render(parts)
  {
    if |parts| == 0 {
    } else {
      FillItself(parts[1..], key);
      assert FillAll(parts, key, Placeholder(key))[1..] == FillAll(parts[1..], key, Placeholder(key));
    }
  }

  // ---------------------------------------------------------------- one after the other is all at once

  /** The replacements as a map. */
  function Meaning(entries: seq<Replacement>): map<string, string> {
    if |entries| == 0 then map[]
    else Meaning(entries[..|entries| - 1])[entries[|entries| - 1].0 := entries[|entries| - 1].1]
  }

  /** Every known placeholder is filled at the same time; the others stay. */
  function Substitute(parts: seq<Part>, values: map<string, string>): seq<Part> {
    seq(|parts|, i requires 0 <= i < |parts| =>
      if parts[i].Ph? && parts[i].key in values then Lit(values[parts[i].key]) else parts[i])
  }

  lemma {:induction false} MeaningIs(entries: seq<Replacement>)
    ensures forall k ::
            k in Meaning(entries) ==> exists i :: 0 <= i < |entries| && entries[i] == (k, Meaning(entries)[k])
  {
    if |entries| == 0 {
    } else {
      var init := entries[..|entries| - 1];
      MeaningIs(init);
      forall k | k in Meaning(entries)
        ensures exists i :: 0 <= i < |entries| && entries[i] == (k, Meaning(entries)[k])
      {
        if k == entries[|entries| - 1].0 {
          assert entries[|entries| - 1] == (k, Meaning(entries)[k]);
        } else {
          assert k in Meaning(init) && Meaning(entries)[k] == Meaning(init)[k];
          var i :| 0 <= i < |init| && init[i] == (k, Meaning(init)[k]);
          assert entries[i] == (k, Meaning(entries)[k]);
        }
      }
    }
  }

  /** What has been filled in so far is safe from the next replacement. */
  lemma FilledIsSafe(parts: seq<Part>, entries: seq<Replacement>)
    requires |entries| > 0 && Safe(parts, entries) && Usable(entries)
    ensures Safe(Substitute(parts, Meaning(entries[..|entries| - 1])), [entries[|entries| - 1]])
    ensures entries[|entries| - 1].0 !in Meaning(entries[..|entries| - 1])
  {
    hide Harmless;
    var init, last := entries[..|entries| - 1], entries[|entries| - 1];
    MeaningIs(init);
    forall k | k in Meaning(init) ensures Harmless(Meaning(init)[k], last) && k != last.0 {
      var i :| 0 <= i < |init| && init[i] == (k, Meaning(init)[k]);
      assert entries[i] == init[i];
    }
  }

  /** Replacing one key at a time is substituting all of them at once. */
  lemma {:induction false} ReplacementIsSimultaneous(parts: seq<Part>, entries: seq<Replacement>)
    requires Safe(parts, entries) && Usable(entries)
    ensures Replaced(Render(parts), entries) == Render(Substitute(parts, Meaning(entries)))
  {
    if |entries| == 0 {
      assert Substitute(parts, Meaning(entries)) == parts;
    } else {
      hide Harmless, ReplaceFrom, ReplaceIn, Render, Fixed;
      var init, last := entries[..|entries| - 1], entries[|entries| - 1];
      assert Safe(parts, init) && Usable(init);
      ReplacementIsSimultaneous(parts, init);
      FilledIsSafe(parts, entries);
      var filled := Substitute(parts, Meaning(init));
      ReplaceFromIs(Render(filled), 0, Placeholder(last.0), last.1);
      assert Render(filled)[0..] == Render(filled);
      ReplaceIsFill(filled, last);
      assert FillAll(filled, last.0, last.1) == Substitute(parts, Meaning(entries));
    }
  }

  /** The order of the keys does not matter, and no placeholder of a known key is left. */
  lemma OrderDoesNotMatter(parts: seq<Part>, a: seq<Replacement>, b: seq<Replacement>)
    requires Safe(parts, a) && Safe(parts, b) && Usable(a) && Usable(b) && Meaning(a) == Meaning(b)
    ensures Replaced(Render(parts), a) == Replaced(Render(parts), b)
    ensures forall i, k :: 0 <= i < |parts| && k in Meaning(a) ==> Substitute(parts, Meaning(a))[i] != Ph(k)
  {
    ReplacementIsSimultaneous(parts, a);
    ReplacementIsSimultaneous(parts, b);
  }

  // ---------------------------------------------------------------- the patterns of a replacement text

  /** Text that the pattern does not touch is copied by the replacement. */
  lemma {:induction false} QuietCopied(before: string, t: string, rest: string, pattern: string, v: string)
    requires Quiet(t, pattern) && |pattern| > 0
    ensures ReplaceFrom(before + (t + rest), |before|, pattern, v)
            == t + ReplaceFrom(before + (t + rest), |before| + |t|, pattern, v)
    decreases |t|
  {
    hide ReplaceFrom, Quiet;
    var s := before + (t + rest);
    if |t| == 0 {
    } else {
      QuietTail(t, pattern);
      FirstIsNoMatch(t, rest, pattern);
      assert s[|before|..] == t + rest;
      MissFrom(s, |before|, pattern, v);
      assert s == (before + [t[0]]) + (t[1..] + rest);
      QuietCopied(before + [t[0]], t[1..], rest, pattern, v);
      Regroup(t, ReplaceFrom(s, |before| + |t|, pattern, v));
    }
  }

  lemma Regroup(t: string, rest: string)
    requires |t| > 0
    ensures [t[0]] + (t[1..] + rest) == t + rest
  {}

  lemma FirstIsNoMatch(t: string, rest: string, pattern: string)
    requires |t| > 0 && Quiet(t, pattern)
    ensures !(pattern <= t + rest)
  {
    assert t[0..] == t;
    if pattern <= t + rest { StartsAlike(t, rest, pattern); }
  }

  /** The one place where a pattern stands: its replacement sees the text before and after it. */
  lemma OnePlace(a: string, p: string, b: string, v: string)
    requires Quiet(a, p) && Quiet(b, p) && |p| > 0
    ensures ReplaceFrom(a + (p + b), 0, p, v) == a + (Expand(v, p, a, b) + b)
  {
    hide Expand, Quiet, ReplaceFrom;
    var s := a + (p + b);
    assert s == "" + (a + (p + b)) && |""| == 0;
    QuietCopied("", a, p + b, p, v);
    assert s[|a|..] == p + b && s[..|a|] == a && s[|a| + |p|..] == b;
    MatchFrom(s, |a|, p, v);
    assert s == (a + p) + (b + "");
    QuietCopied(a + p, b, "", p, v);
    AtTheEnd(s, p, v);
    assert b + "" == b;
  }

  lemma MatchFrom(s: string, i: nat, p: string, v: string)
    requires i <= |s| && |p| > 0 && p <= s[i..]
    ensures ReplaceFrom(s, i, p, v) == Expand(v, p, s[..i], s[i + |p|..]) + ReplaceFrom(s, i + |p|, p, v)
  {}

  /** The four patterns: the match, the text before it, the text after it, and the dollar sign itself. */
  lemma PatternsMean(a: string, k: string, b: string)
    requires KeyText(k) && Quiet(a, Placeholder(k)) && Quiet(b, Placeholder(k))
    ensures var p := Placeholder(k);
            var s := a + (p + b);
            && ReplaceFrom(s, 0, p, "$&") == s
            && ReplaceFrom(s, 0, p, "$`") == a + (a + b)
            && ReplaceFrom(s, 0, p, "$'") == a + (b + b)
            && ReplaceFrom(s, 0, p, "$$") == a + ("$" + b)
  {
    hide ReplaceFrom, Quiet;
    var p := Placeholder(k);
    OnePlace(a, p, b, "$&");
    OnePlace(a, p, b, "$`");
    OnePlace(a, p, b, "$'");
    OnePlace(a, p, b, "$$");
    NothingExpands(p, a, b);
    assert "$&"[2..] == "" && "$`"[2..] == "" && "$'"[2..] == "" && "$$"[2..] == "";
    assert p + "" == p && a + "" == a && b + "" == b && "$" + "" == "$";
  }

  lemma NothingExpands(found: string, before: string, after: string)
    ensures Expand("", found, before, after) == ""
  {}

  // ---------------------------------------------------------------- values piece by piece

  datatype Piece = Plain(c: char) | TheMatch | TextBefore | TextAfter | Dollar

  function Spelled(piece: Piece): string {
    match piece
    case Plain(c) => [c]
    case TheMatch => "$&"
    case TextBefore => "$`"
    case TextAfter => "$'"
    case Dollar => "$$"
  }

  function Inserts(piece: Piece, found: string, before: string, after: string): string {
    match piece
    case Plain(c) => [c]
    case TheMatch => found
    case TextBefore => before
    case TextAfter => after
    case Dollar => "$"
  }

  function Written(pieces: seq<Piece>): string {
    if |pieces| == 0 then "" else Spelled(pieces[0]) + Written(pieces[1..])
  }

  function Inserted(pieces: seq<Piece>, found: string, before: string, after: string): string {
    if |pieces| == 0 then ""
    else Inserts(pieces[0], found, before, after) + Inserted(pieces[1..], found, before, after)
  }

  predicate Opens(c: char) {
    c == '$' || c == '&' || c == '`' || c == '\''
  }

  /** A dollar sign that stands for itself is not followed by what would make it a pattern. */
  predicate Unambiguous(pieces: seq<Piece>) {
    forall i :: 0 <= i < |pieces| - 1 && pieces[i] == Plain('$') ==> !Opens(Spelled(pieces[i + 1])[0])
  }

  lemma UnambiguousRest(pieces: seq<Piece>)
    requires |pieces| > 0 && Unambiguous(pieces)
    ensures Unambiguous(pieces[1..])
    ensures pieces[0] == Plain('$') && |pieces| > 1 ==> !Opens(Written(pieces[1..])[0])
  {
    var rest := pieces[1..];
    forall i | 0 <= i < |rest| - 1 && rest[i] == Plain('$') ensures !Opens(Spelled(rest[i + 1])[0]) {
      assert pieces[i + 1] == rest[i] && pieces[i + 2] == rest[i + 1];
    }
  }

  lemma PieceExpands(piece: Piece, w: string, found: string, before: string, after: string)
    requires piece == Plain('$') && |w| > 0 ==> !Opens(w[0])
    ensures Expand(Spelled(piece) + w, found, before, after)
            == Inserts(piece, found, before, after) + Expand(w, found, before, after)
  {
    var v := Spelled(piece) + w;
    assert v[|Spelled(piece)|..] == w;
    if piece.Plain? && |w| > 0 { assert v[1] == w[0]; }
  }

  lemma {:induction false} PiecesExpand(pieces: seq<Piece>, found: string, before: string, after: string)
    requires Unambiguous(pieces)
    ensures Expand(Written(pieces), found, before, after) == Inserted(pieces, found, before, after)
  {
    hide Unambiguous, Opens, Spelled, Inserts;
    if |pieces| == 0 {
    } else {
      UnambiguousRest(pieces);
      PiecesExpand(pieces[1..], found, before, after);
      hide Expand;
      PieceExpands(pieces[0], Written(pieces[1..]), found, before, after);
    }
  }

  function FirstPiece(v: string): (piece: Piece)
    requires |v| > 0
    ensures Spelled(piece) <= v
    ensures piece == Plain('$') && |v| > 1 ==> !Opens(v[1])
  {
    if |v| == 1 || v[0] != '$' then Plain(v[0])
    else if v[1] == '$' then Dollar
    else if v[1] == '&' then TheMatch
    else if v[1] == '`' then TextBefore
    else if v[1] == '\'' then TextAfter
    else Plain('$')
  }

  /** Every value can be read as pieces in this way. */
  lemma {:induction false} ReadAsPieces(v: string) returns (pieces: seq<Piece>)
    ensures Unambiguous(pieces) && Written(pieces) == v
  {
    if |v| == 0 {
      pieces := [];
    } else {
      var first := FirstPiece(v);
      var w := v[|Spelled(first)|..];
      var rest := ReadAsPieces(w);
      hide Opens, FirstPiece;
      pieces := [first] + rest;
      assert pieces[1..] == rest && v == Spelled(first) + w;
      if |rest| > 0 && first == Plain('$') { assert Spelled(rest[0])[0] == w[0] == v[1]; }
      JoinUnambiguous(first, rest);
    }
  }

  lemma JoinUnambiguous(first: Piece, rest: seq<Piece>)
    requires Unambiguous(rest)
    requires first == Plain('$') && |rest| > 0 ==> !Opens(Spelled(rest[0])[0])
    ensures Unambiguous([first] + rest)
  {
    var pieces := [first] + rest;
    forall i | 0 <= i < |pieces| - 1 && pieces[i] == Plain('$') ensures !Opens(Spelled(pieces[i + 1])[0]) {
      if i > 0 { assert rest[i - 1] == pieces[i] && rest[i] == pieces[i + 1]; }
    }
  }

  /** In the one place where a placeholder stands, every piece of the value inserts its own text. */
  lemma PiecesMean(a: string, k: string, b: string, pieces: seq<Piece>)
    requires KeyText(k) && Quiet(a, Placeholder(k)) && Quiet(b, Placeholder(k)) && Unambiguous(pieces)
    ensures ReplaceFrom(a + (Placeholder(k) + b), 0, Placeholder(k), Written(pieces))
            == a + (Inserted(pieces, Placeholder(k), a, b) + b)
  {
    hide Expand, ReplaceFrom, Quiet, Written, Inserted, Unambiguous;
    OnePlace(a, Placeholder(k), b, Written(pieces));
    PiecesExpand(pieces, Placeholder(k), a, b);
  }

  // ---------------------------------------------------------------- exactly when

  /** Replacing is substituting in every safe template. */
  ghost predicate AlwaysSubstitutes(entries: seq<Replacement>) {
    forall parts | Safe(parts, entries) ::
      Replaced(Render(parts), entries) == Render(Substitute(parts, Meaning(entries)))
  }

  function Braces(s: string): nat {
    if |s| == 0 then 0 else Braces(s[1..]) + if s[0] == '{' then 1 else 0
  }

  lemma {:induction false} BracesJoin(a: string, b: string)
    ensures Braces(a + b) == Braces(a) + Braces(b)
  {
    if |a| == 0 {
      assert a + b == b;
    } else {
      BracesJoin(a[1..], b);
      assert (a + b)[1..] == a[1..] + b;
    }
  }

  /** Alone in the text a pattern always shows: a match adds braces, and the other patterns lose characters. */
  lemma {:induction false} ExpandShows(v: string, found: string)
    requires Braces(found) > 0
    ensures var e := Expand(v, found, "", "");
            && Braces(e) >= Braces(v)
            && (Braces(e) == Braces(v) ==> |e| <= |v| && (!Fixed(v) ==> |e| < |v|))
  {
    if |v| == 0 {
    } else {
      hide Fixed;
      if |v| >= 2 && v[0] == '$' && (v[1] == '$' || v[1] == '&' || v[1] == '`' || v[1] == '\'') {
        ExpandShows(v[2..], found);
        PatternFirst(v, found);
      } else {
        ExpandShows(v[1..], found);
        NoPatternFirst(v, found);
      }
    }
  }

  lemma PatternFirst(v: string, found: string)
    requires |v| >= 2 && v[0] == '$' && (v[1] == '$' || v[1] == '&' || v[1] == '`' || v[1] == '\'')
    ensures var e, rest := Expand(v, found, "", ""), Expand(v[2..], found, "", "");
            && Braces(v) == Braces(v[2..])
            && (if v[1] == '&' then Braces(e) == Braces(found) + Braces(rest)
                else Braces(e) == Braces(rest) && |e| <= 1 + |rest|)
  {
    var rest := Expand(v[2..], found, "", "");
    assert v[1..][1..] == v[2..];
    if v[1] == '$' {
      assert ("$" + rest)[1..] == rest;
    } else if v[1] == '&' {
      BracesJoin(found, rest);
    } else {
      assert "" + rest == rest;
    }
  }

  lemma NoPatternFirst(v: string, found: string)
    requires |v| >= 1
    requires !(|v| >= 2 && v[0] == '$' && (v[1] == '$' || v[1] == '&' || v[1] == '`' || v[1] == '\''))
    ensures var e, rest := Expand(v, found, "", ""), Expand(v[1..], found, "", "");
            && |e| == 1 + |rest| && Braces(e) - Braces(v) == Braces(rest) - Braces(v[1..])
            && (Fixed(v[1..]) ==> Fixed(v))
  {
    var rest := Expand(v[1..], found, "", "");
    assert ([v[0]] + rest)[1..] == rest;
    if Fixed(v[1..]) {
      forall i | 0 <= i < |v| - 1 && v[i] == '$'
        ensures v[i + 1] != '$' && v[i + 1] != '&' && v[i + 1] != '`' && v[i + 1] != '\''
      {
        if i > 0 { assert v[1..][i - 1] == v[i] && v[1..][i] == v[i + 1]; }
      }
    }
  }

  /** A replacement by something else that hits shows. */
  lemma {:induction false} HitShows(t: string, i: nat, pattern: string, v: string)
    requires i <= |t| && 0 < |pattern| && pattern <= t[i..] && v != pattern
    ensures ReplaceIn(t, pattern, v) != t
    ensures |v| < |pattern| ==> |ReplaceIn(t, pattern, v)| < |t|
    ensures |v| > |pattern| ==> |ReplaceIn(t, pattern, v)| > |t|
  {
    if pattern <= t {
      LengthGrows(t[|pattern|..], pattern, v);
      if |v| == |pattern| {
        assert ReplaceIn(t, pattern, v)[..|v|] == v && t[..|v|] == pattern;
      }
    } else {
      assert t[0..] == t;
      assert t[1..][i - 1..] == t[i..];
      HitShows(t[1..], i - 1, pattern, v);
      assert ReplaceIn(t, pattern, v)[1..] == ReplaceIn(t[1..], pattern, v);
    }
  }

  lemma {:induction false} LengthGrows(t: string, pattern: string, v: string)
    requires 0 < |pattern|
    ensures |v| <= |pattern| ==> |ReplaceIn(t, pattern, v)| <= |t|
    ensures |v| >= |pattern| ==> |ReplaceIn(t, pattern, v)| >= |t|
  {
    if |t| == 0 {
    } else if pattern <= t {
      LengthGrows(t[|pattern|..], pattern, v);
    } else {
      LengthGrows(t[1..], pattern, v);
    }
  }

  lemma EndCompletes(x: string, i: nat, p: string)
    requires i < |x| && x[i..] <= p
    ensures (x + p[|x| - i..])[i..] == p
  {
    var n := |x| - i;
    assert (x + p[n..])[i..] == x[i..] + p[n..];
    assert p == p[..n] + p[n..];
  }

  /** What completes a pattern that starts in `x`: nothing, or the end of the placeholder. */
  lemma Completion(x: string, b: string) returns (rest: string, i: nat)
    requires KeyText(b) && !Quiet(x, Placeholder(b))
    ensures Inert(rest) && i <= |x + rest| && Placeholder(b) <= (x + rest)[i..]
  {
    hide Placeholder, Inert, Tail, KeyText;
    var p := Placeholder(b);
    i :| 0 <= i < |x| && (x[i..] <= p || p <= x[i..]);
    PlaceholderTail(b);
    if p <= x[i..] {
      rest := "";
      assert x + rest == x;
      InertDrop(Tail(b), |Tail(b)|);
    } else {
      var n := |x| - i;
      rest := p[n..];
      EndCompletes(x, i, p);
      assert rest == Tail(b)[n - 1..];
      InertDrop(Tail(b), n - 1);
    }
  }

  lemma InertDrop(t: string, n: nat)
    requires Inert(t) && n <= |t|
    ensures Inert(t[n..])
  {
    assert forall i :: 0 <= i < |t[n..]| ==> t[n..][i] == t[n + i];
  }

  lemma {:induction false} MeaningHas(entries: seq<Replacement>, i: nat)
    requires Keys(entries) && i < |entries|
    ensures entries[i].0 in Meaning(entries) && Meaning(entries)[entries[i].0] == entries[i].1
  {
    if i == |entries| - 1 {
    } else {
      MeaningHas(entries[..|entries| - 1], i);
    }
  }

  lemma LastIsNew(entries: seq<Replacement>)
    requires Keys(entries) && |entries| > 0
    ensures entries[|entries| - 1].0 !in Meaning(entries[..|entries| - 1])
  {
    var init, last := entries[..|entries| - 1], entries[|entries| - 1];
    MeaningIs(init);
    assert forall i :: 0 <= i < |init| ==> init[i].0 == entries[i].0 != last.0;
  }

  /** The last replacement acts on the template with the other keys substituted. */
  lemma LastStep(parts: seq<Part>, entries: seq<Replacement>)
    requires |entries| > 0 && Usable(entries[..|entries| - 1]) && Safe(parts, entries)
    ensures var init, last := entries[..|entries| - 1], entries[|entries| - 1];
            Replaced(Render(parts), entries)
            == ReplaceFrom(Render(Substitute(parts, Meaning(init))), 0, Placeholder(last.0), last.1)
  {
    hide Harmless, Usable, ReplaceFrom, Render;
    assert Safe(parts, entries[..|entries| - 1]);
    ReplacementIsSimultaneous(parts, entries[..|entries| - 1]);
  }

  /** A value that does not expand to itself shows where its placeholder stands alone. */
  lemma LastFixed(entries: seq<Replacement>)
    requires |entries| > 0 && Keys(entries) && Usable(entries[..|entries| - 1]) && AlwaysSubstitutes(entries)
    ensures Fixed(entries[|entries| - 1].1)
  {
    hide Fixed, Usable, Render, Replaced, ReplaceFrom, KeyText, AlwaysSubstitutes;
    var init, last := entries[..|entries| - 1], entries[|entries| - 1];
    var parts, p := [Ph(last.0)], Placeholder(last.0);
    LastIsNew(entries);
    assert Safe(parts, entries);
    LastStep(parts, entries);
    assert Substitute(parts, Meaning(init)) == parts;
    assert Substitute(parts, Meaning(entries)) == [Lit(last.1)];
    RenderOne(Ph(last.0));
    RenderOne(Lit(last.1));
    WholeReplaced(p, last.1);
    ExpandShows(last.1, p);
    Always(entries, parts);
  }

  lemma Always(entries: seq<Replacement>, parts: seq<Part>)
    requires AlwaysSubstitutes(entries) && Safe(parts, entries)
    ensures Replaced(Render(parts), entries) == Render(Substitute(parts, Meaning(entries)))
  {}

  lemma WholeReplaced(p: string, v: string)
    requires |p| > 0 && p[0] == '{'
    ensures ReplaceFrom(p, 0, p, v) == Expand(v, p, "", "") && Braces(p) > 0
  {
    assert p[0..] == p && p[..0] == "" && p[|p|..] == "";
    assert ReplaceFrom(p, |p|, p, v) == "";
    assert ReplaceFrom(p, 0, p, v) == Expand(v, p, "", "") + "";
  }

  /** An earlier value that the last replacement can hit shows before the rest of the placeholder. */
  lemma LastHarmless(entries: seq<Replacement>, i: nat)
    requires Keys(entries) && i < |entries| - 1 && Usable(entries[..|entries| - 1]) && AlwaysSubstitutes(entries)
    requires Fixed(entries[|entries| - 1].1)
    ensures Harmless(entries[i].1, entries[|entries| - 1])
  {
    hide Fixed, Usable, Render, Replaced, ReplaceFrom, ReplaceIn, AlwaysSubstitutes, Inert, Quiet, Meaning;
    var init, last := entries[..|entries| - 1], entries[|entries| - 1];
    var x := entries[i].1;
    if !Harmless(x, last) {
      var rest, k := Completion(x, last.0);
      var parts := [Ph(entries[i].0), Lit(rest)];
      forall j | 0 <= j < |entries| ensures Harmless(rest, entries[j]) { InertIsQuiet(rest, entries[j].0); }
      assert Safe(parts, entries);
      LastStep(parts, entries);
      assert Keys(init) && init[i] == entries[i];
      MeaningHas(init, i);
      MeaningHas(entries, i);
      assert Substitute(parts, Meaning(init)) == [Lit(x), Lit(rest)];
      assert Substitute(parts, Meaning(entries)) == [Lit(x), Lit(rest)];
      RenderFirst([Lit(x), Lit(rest)]);
      assert [Lit(x), Lit(rest)][1..] == [Lit(rest)];
      RenderOne(Lit(rest));
      ReplaceFromIs(x + rest, 0, Placeholder(last.0), last.1);
      assert (x + rest)[0..] == x + rest;
      HitShows(x + rest, k, Placeholder(last.0), last.1);
      Always(entries, parts);
    }
  }

  /** After every key the text is the template with the keys handled so far substituted all at once. */
  ghost predicate SubstitutesEachKey(entries: seq<Replacement>) {
    forall n | 0 <= n <= |entries| :: AlwaysSubstitutes(entries[..n])
  }

  /** In every safe template and after every key, exactly when the values expand to themselves and no later
      replacement can hit an earlier value. */
  lemma EachKeyExactlyWhen(entries: seq<Replacement>)
    requires Keys(entries)
    ensures SubstitutesEachKey(entries) <==> Usable(entries)
  {
    if SubstitutesEachKey(entries) { MustBeUsable(entries); }
    if Usable(entries) {
      forall n | 0 <= n <= |entries| ensures AlwaysSubstitutes(entries[..n]) {
        assert Usable(entries[..n]);
        UsableSubstitutes(entries[..n]);
      }
    }
  }

  lemma UsableSubstitutes(entries: seq<Replacement>)
    requires Usable(entries)
    ensures AlwaysSubstitutes(entries)
  {
    hide Usable, Safe, Render, Replaced;
    forall parts | Safe(parts, entries)
      ensures Replaced(Render(parts), entries) == Render(Substitute(parts, Meaning(entries)))
    {
      ReplacementIsSimultaneous(parts, entries);
    }
  }

  lemma {:induction false} MustBeUsable(entries: seq<Replacement>)
    requires Keys(entries) && SubstitutesEachKey(entries)
    ensures Usable(entries)
  {
    hide AlwaysSubstitutes, Fixed, Harmless, KeyText;
    if |entries| == 0 {
    } else {
      var init, last := entries[..|entries| - 1], entries[|entries| - 1];
      assert forall n :: 0 <= n <= |init| ==> init[..n] == entries[..n];
      MustBeUsable(init);
      assert entries[..|entries|] == entries;
      LastFixed(entries);
      forall i | 0 <= i < |entries| - 1 ensures Harmless(entries[i].1, last) { LastHarmless(entries, i); }
      forall i, j | 0 <= i < j < |entries| ensures Harmless(entries[i].1, entries[j]) {
        if j < |init| { assert init[i] == entries[i] && init[j] == entries[j]; }
      }
      forall i | 0 <= i < |entries| ensures Fixed(entries[i].1) {
        if i < |init| { assert init[i] == entries[i]; }
      }
    }
  }

  /** One key: for every safe template exactly when no `$` of the value starts a pattern. */
  lemma OneKeyExactlyWhen(k: string, v: string)
    requires KeyText(k)
    ensures AlwaysSubstitutes([(k, v)]) <==> Fixed(v)
  {
    if Fixed(v) {
      UsableSubstitutes([(k, v)]);
    }
    if AlwaysSubstitutes([(k, v)]) {
      LastFixed([(k, v)]);
    }
  }

  /** Two keys: for every safe template, when the first value expands to itself, exactly when the second does
      too and the second replacement cannot hit the first value. */
  lemma TwoKeysExactlyWhen(a: string, x: string, b: string, y: string)
    requires KeyText(a) && KeyText(b) && a != b && Fixed(x)
    ensures AlwaysSubstitutes([(a, x), (b, y)]) <==> Fixed(y) && Harmless(x, (b, y))
  {
    var entries := [(a, x), (b, y)];
    assert entries[..1] == [(a, x)];
    if Fixed(y) && Harmless(x, (b, y)) {
      UsableSubstitutes(entries);
    }
    if AlwaysSubstitutes(entries) {
      LastFixed(entries);
      LastHarmless(entries, 0);
    }
  }

  // ---------------------------------------------------------------- in every order

  /** An order of `n` keys. */
  predicate IsOrder(order: seq<nat>, n: nat) {
    && |order| == n
    && (forall k :: 0 <= k < n ==> order[k] < n)
    && (forall k, l :: 0 <= k < l < n ==> order[k] != order[l])
  }

  function InOrder(entries: seq<Replacement>, order: seq<nat>): seq<Replacement>
    requires IsOrder(order, |entries|)
  {
    seq(|order|, k requires 0 <= k < |order| => entries[order[k]])
  }

  /** In every order of the keys, exactly when the values expand to themselves and no replacement can hit
      another key's value. */
  lemma EveryOrderExactlyWhen(entries: seq<Replacement>)
    requires Keys(entries)
    ensures (forall order | IsOrder(order, |entries|) :: SubstitutesEachKey(InOrder(entries, order)))
            <==> && (forall i :: 0 <= i < |entries| ==> Fixed(entries[i].1))
                 && (forall i, j :: 0 <= i < |entries| && 0 <= j < |entries| && i != j ==>
                       Harmless(entries[i].1, entries[j]))
  {
    hide SubstitutesEachKey, Fixed, Harmless, KeyText;
    forall order | IsOrder(order, |entries|)
      ensures SubstitutesEachKey(InOrder(entries, order)) <==> Usable(InOrder(entries, order))
    {
      EachKeyExactlyWhen(InOrder(entries, order));
    }
    if forall order | IsOrder(order, |entries|) :: SubstitutesEachKey(InOrder(entries, order)) {
      forall i, j | 0 <= i < |entries| && 0 <= j < |entries|
        ensures Fixed(entries[i].1) && (i != j ==> Harmless(entries[i].1, entries[j]))
      {
        var order, k, l := Before(|entries|, i, j);
        var b := InOrder(entries, order);
        assert Usable(b) && b[k] == entries[i] && b[l] == entries[j];
      }
    }
  }

  /** An order in which `i` comes before `j`. */
  lemma Before(n: nat, i: nat, j: nat) returns (order: seq<nat>, k: nat, l: nat)
    requires i < n && j < n
    ensures IsOrder(order, n) && k < n && l < n && order[k] == i && order[l] == j && (i != j ==> k < l)
  {
    order, k, l := seq(n, x requires 0 <= x < n => x), i, j;
    if j < i {
      order, k, l := order[j := i][i := j], j, i;
    }
  }

  /** A value that holds the placeholder of another key: the order decides whether that is replaced. */
  lemma OrderMattersWithBraces(a: string, b: string, x: string)
    requires KeyText(a) && KeyText(b) && Free(b, '$') && a != b && Fixed(x)
    ensures Replaced(Placeholder(a), [(a, Placeholder(b)), (b, x)]) == x
    ensures Replaced(Placeholder(a), [(b, x), (a, Placeholder(b))]) == Placeholder(b)
  {
    hide ReplaceFrom, ReplaceIn, Replaced;
    TwoEntries(Placeholder(a), (a, Placeholder(b)), (b, x));
    TwoEntries(Placeholder(a), (b, x), (a, Placeholder(b)));
    assert Fixed(Placeholder(b));
    ReplaceOne(a, a, Placeholder(b));
    ReplaceOne(b, b, x);
    ReplaceOne(a, b, x);
  }

  /** Why the text is looked at after every key: a later replacement can repair what an earlier one did. Here
      the second key hits the first value, and the third puts that value back. */
  lemma RepairedLater(a: string, b: string, c: string)
    requires Keys([(a, ""), (b, ""), (c, "")]) && Free(b, '$') && Free(c, '$')
    ensures var x := "{" + Placeholder(b);
            var entries := [(a, x), (b, Tail(c)), (c, x)];
            && Keys(entries) && !Harmless(x, (b, Tail(c)))
            && Replaced(Placeholder(a), entries[..2]) == Placeholder(c)
            && Replaced(Placeholder(a), entries) == x
  {
    hide ReplaceFrom, ReplaceIn, Replaced, Quiet, Expand;
    var keys := [(a, ""), (b, ""), (c, "")];
    assert keys[0].0 == a && keys[1].0 == b && keys[2].0 == c;
    var x := "{" + Placeholder(b);
    var entries := [(a, x), (b, Tail(c)), (c, x)];
    HitInside(b, c);
    TwoEntries(Placeholder(a), (a, x), (b, Tail(c)));
    assert entries[..2] == [(a, x), (b, Tail(c))];
    ReplaceOne(a, a, x);
    LastOf(Placeholder(a), entries);
    ReplaceOne(c, c, x);
  }

  lemma LastOf(t: string, entries: seq<Replacement>)
    requires |entries| > 0
    ensures var init, last := entries[..|entries| - 1], entries[|entries| - 1];
            Replaced(t, entries) == ReplaceFrom(Replaced(t, init), 0, Placeholder(last.0), last.1)
  {}

  lemma HitInside(b: string, c: string)
    requires KeyText(b) && KeyText(c) && Free(b, '$') && Free(c, '$')
    ensures var x := "{" + Placeholder(b);
            && !Quiet(x, Placeholder(b)) && Fixed(x) && Tail(c) != Placeholder(b)
            && ReplaceFrom(x, 0, Placeholder(b), Tail(c)) == Placeholder(c)
  {
    hide ReplaceFrom, ReplaceIn;
    var x := "{" + Placeholder(b);
    assert x[1..] == Placeholder(b) && !Quiet(x, Placeholder(b)) by { assert Placeholder(b) <= x[1..]; }
    assert Tail(c)[1] != '{';
    PlaceholderTail(c);
    ReplacedInside(b, Tail(c));
  }

  lemma ReplacedInside(b: string, v: string)
    requires KeyText(b) && Fixed(v)
    ensures ReplaceFrom("{" + Placeholder(b), 0, Placeholder(b), v) == "{" + v
  {
    hide ReplaceFrom, ReplaceIn, Fixed, KeyText;
    var x, p := "{" + Placeholder(b), Placeholder(b);
    ReplaceFromIs(x, 0, p, v);
    assert x[0..] == x && x[1..] == p;
    assert !(p <= x) by { BraceBefore(b); }
    Miss(x, p, v);
    PlaceholderPasses(b, "", b, v);
    assert p + "" == p;
    NothingReplaced(p, v);
  }

  lemma BraceBefore(b: string)
    requires KeyText(b)
    ensures !(Placeholder(b) <= "{" + Placeholder(b))
  {
    var p := Placeholder(b);
    assert ("{" + p)[2] == '{' && p[2] != '{';
  }

  lemma NothingReplaced(pattern: string, v: string)
    requires |pattern| > 0
    ensures ReplaceIn("", pattern, v) == ""
  {}

  lemma TwoEntries(t: string, e: Replacement, f: Replacement)
    ensures Replaced(t, [e, f]) == ReplaceFrom(ReplaceFrom(t, 0, Placeholder(e.0), e.1), 0, Placeholder(f.0), f.1)
  {
    assert [e, f][..1] == [e] && [e][..0] == [];
    assert Replaced(t, [e]) == ReplaceFrom(t, 0, Placeholder(e.0), e.1);
  }

  lemma ReplaceOne(k: string, key: string, v: string)
    requires KeyText(k) && KeyText(key) && Fixed(v)
    ensures ReplaceFrom(Placeholder(k), 0, Placeholder(key), v) == if k == key then v else Placeholder(k)
  {
    ReplaceFromIs(Placeholder(k), 0, Placeholder(key), v);
    assert Placeholder(k)[0..] == Placeholder(k) == Placeholder(k) + "";
    PlaceholderPasses(k, "", key, v);
  }
}

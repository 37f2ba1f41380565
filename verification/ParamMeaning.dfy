/**
 What a query with named parameters means, and exactly when the positional query that
 `paramExecute` sends means the same.

 The reference reading scans the query once: at every `@` the longest run of word
 characters that follows is a name, and the name stands for the value of its key.
 */
module ParamMeaning {
  import opened Option
  import opened NamedParams
  import opened Sequences

  // ---------------------------------------------------------------- the reference reading

  datatype Token = Ch(c: char) | Param(key: nat)
  datatype Piece = Lit(c: char) | Val(v: Value)

  function WordRun(s: string): (n: nat)
    ensures n <= |s|
    ensures forall i :: 0 <= i < n ==> IsWordChar(s[i])
    ensures n < |s| ==> !IsWordChar(s[n])
  {
    if s == "" || !IsWordChar(s[0]) then 0 else 1 + WordRun(s[1..])
  }

  /** The first key equal to `name` ignoring case; `|keys|` when there is none. */
  function Find(keys: seq<string>, name: string): (i: nat)
    ensures i <= |keys|
    ensures i < |keys| ==> SameIgnoringCase(keys[i], name)
    ensures forall j :: 0 <= j < i ==> !SameIgnoringCase(keys[j], name)
  {
    if |keys| == 0 || SameIgnoringCase(keys[0], name) then 0 else 1 + Find(keys[1..], name)
  }

  function Tokens(q: string, keys: seq<string>): seq<Token>
    decreases |q|
  {
    if q == "" then []
    else if q[0] == '@' && Find(keys, q[1..][..WordRun(q[1..])]) < |keys| then
      [Param(Find(keys, q[1..][..WordRun(q[1..])]))] + Tokens(q[1..][WordRun(q[1..])..], keys)
    else [Ch(q[0])] + Tokens(q[1..], keys)
  }

  /** The query with every known name replaced by its own value. */
  function Substitute(ts: seq<Token>, keys: seq<string>, values: map<string, Value>): seq<Piece>
    requires Covers(values, keys)
    requires forall i :: 0 <= i < |ts| && ts[i].Param? ==> ts[i].key < |keys|
  {
    if ts == [] then []
    else if ts[0].Ch? then [Lit(ts[0].c)] + Substitute(ts[1..], keys, values)
    else [Val(Encode(values[keys[ts[0].key]]))] + Substitute(ts[1..], keys, values)
  }

  /** Positional binding as the database does it: the i-th `?` takes the i-th value, and the
      counts have to agree. */
  function Bind(text: string, vals: seq<Value>): Option<seq<Piece>> {
    if text == "" then if vals == [] then Some([]) else None
    else if text[0] == '?' then
      if vals == [] then None
      else match Bind(text[1..], vals[1..])
        case Some(r) => Some([Val(vals[0])] + r)
        case None => None
    else match Bind(text[1..], vals)
      case Some(r) => Some([Lit(text[0])] + r)
      case None => None
  }

  /** Within one whitespace-delimited word the parameters appear once each and in key order. */
  predicate WordsInKeyOrder(ts: seq<Token>, last: int) {
    ts == []
    || (ts[0].Param? && last < ts[0].key && WordsInKeyOrder(ts[1..], ts[0].key))
    || (ts[0].Ch? && WordsInKeyOrder(ts[1..], if IsSpace(ts[0].c) then -1 else last))
  }

  function Show(ts: seq<Token>): string {
    if ts == [] then "" else if ts[0].Ch? then [ts[0].c] + Show(ts[1..]) else "?" + Show(ts[1..])
  }

  function Params(ts: seq<Token>): seq<nat> {
    if ts == [] then [] else if ts[0].Param? then [ts[0].key] + Params(ts[1..]) else Params(ts[1..])
  }

  // ---------------------------------------------------------------- the scan

  lemma TokensInRange(q: string, keys: seq<string>)
    ensures forall i :: 0 <= i < |Tokens(q, keys)| && Tokens(q, keys)[i].Param? ==> Tokens(q, keys)[i].key < |keys|
    decreases |q|
  {}

  lemma RunIs(s: string, n: nat)
    requires n <= |s| && forall i :: 0 <= i < n ==> IsWordChar(s[i])
    requires n < |s| ==> !IsWordChar(s[n])
    ensures WordRun(s) == n
  {}

  /** A key matches at an `@` exactly when it is the whole name that follows. */
  lemma MatchIsWholeName(s: string, key: string)
    requires s != "" && s[0] == '@' && IsName(key)
    ensures MatchAt(s, key) <==> SameIgnoringCase(key, s[1..][..WordRun(s[1..])])
  {
    var n := WordRun(s[1..]);
    var name := s[1..][..n];
    if MatchAt(s, key) {
      assert s[1..1 + |key|] == s[1..][..|key|];
      forall i | 0 <= i < |key| ensures IsWordChar(s[1..][i]) {
        assert Lower(s[1..1 + |key|][i]) == Lower(key[i]);
      }
      assert |key| <= n;
      RunIs(s[1..], |key|);
    }
    if SameIgnoringCase(key, name) {
      assert s[1..1 + |key|] == name;
      if |s| > 1 + |key| { assert s[1..][n] == s[1 + |key|]; }
    }
  }

  lemma {:induction false} CopyOne(s: string, keys: seq<string>)
    requires s != "" && s[0] != '@'
    ensures Show(Tokens(s, keys)) == [s[0]] + Show(Tokens(s[1..], keys))
  {
    assert Tokens(s, keys)[1..] == Tokens(s[1..], keys);
  }

  /** Without an `@` in front, word characters are copied. */
  lemma {:induction false} WordCharsAreCopied(s: string, keys: seq<string>, n: nat)
    requires n <= |s| && forall i :: 0 <= i < n ==> IsWordChar(s[i])
    ensures Show(Tokens(s, keys)) == s[..n] + Show(Tokens(s[n..], keys))
  {
    if n > 0 {
      CopyOne(s, keys);
      WordCharsAreCopied(s[1..], keys, n - 1);
      assert s[1..][n - 1..] == s[n..];
      var rest := Show(Tokens(s[n..], keys));
      assert s[..n] == [s[0]] + s[1..][..n - 1];
      Assoc([s[0]], s[1..][..n - 1], rest);
    } else {
      assert s[..n] == "" && s[n..] == s;
    }
  }

  lemma ShownFirst(s: string, keys: seq<string>)
    ensures s == "" ==> Show(Tokens(s, keys)) == ""
    ensures s != "" ==> Show(Tokens(s, keys)) != ""
                        && (IsWordChar(Show(Tokens(s, keys))[0]) <==> IsWordChar(s[0]))
  {}

  lemma SameNameSameKey(a: string, b: string, name: string)
    requires SameIgnoringCase(a, name) && SameIgnoringCase(b, name)
    ensures SameIgnoringCase(a, b)
  {}

  lemma {:induction false} FindAppend(keys: seq<string>, key: string, name: string)
    ensures Find(keys + [key], name) == if Find(keys, name) < |keys| then Find(keys, name)
                                        else if SameIgnoringCase(key, name) then |keys| else |keys| + 1
  {
    if |keys| == 0 {
    } else {
      FindAppend(keys[1..], key, name);
      assert (keys + [key])[1..] == keys[1..] + [key];
    }
  }

  /** One more replacement on the text is one more key for the scan. */
  lemma {:induction false} ReplaceOneMore(q: string, keys: seq<string>, key: string)
    requires IsName(key)
    ensures ReplaceKey(Show(Tokens(q, keys)), key) == Show(Tokens(q, keys + [key]))
    decreases |q|
  {
    if q == "" {
    } else if q[0] == '@' {
      var n := WordRun(q[1..]);
      var name := q[1..][..n];
      var rest := q[1..][n..];
      FindAppend(keys, key, name);
      if Find(keys, name) < |keys| {
        ReplaceOneMore(rest, keys, key);
        var shown := Show(Tokens(q, keys));
        assert shown == "?" + Show(Tokens(rest, keys));
        assert shown[1..] == Show(Tokens(rest, keys));
      } else {
        var shown := Show(Tokens(q, keys));
        assert Tokens(q, keys)[1..] == Tokens(q[1..], keys);
        WordCharsAreCopied(q[1..], keys, n);
        assert shown == "@" + (name + Show(Tokens(rest, keys)));
        assert shown[1..] == Show(Tokens(q[1..], keys));
        RunOfShown(name, rest, keys);
        MatchIsWholeName(shown, key);
        if SameIgnoringCase(key, name) {
          ReplaceOneMore(rest, keys, key);
          assert shown[1 + |key|..] == Show(Tokens(rest, keys));
        } else {
          ReplaceOneMore(q[1..], keys, key);
        }
      }
    } else {
      ReplaceOneMore(q[1..], keys, key);
      var shown := Show(Tokens(q, keys));
      assert shown[1..] == Show(Tokens(q[1..], keys));
    }
  }

  lemma RunOfShown(name: string, rest: string, keys: seq<string>)
    requires forall i :: 0 <= i < |name| ==> IsWordChar(name[i])
    requires rest != "" ==> !IsWordChar(rest[0])
    ensures WordRun(name + Show(Tokens(rest, keys))) == |name|
    ensures (name + Show(Tokens(rest, keys)))[..|name|] == name
  {
    ShownFirst(rest, keys);
    RunIs(name + Show(Tokens(rest, keys)), |name|);
  }

  /** Replacing key after key is the same as replacing every known name at once. */
  lemma {:induction false} ReplacementIsSimultaneous(q: string, keys: seq<string>, n: nat)
    requires AreNames(keys) && n <= |keys|
    ensures ReplaceFirst(q, keys, n) == Show(Tokens(q, keys[..n]))
  {
    if n == 0 {
      NoKeys(q);
    } else {
      ReplacementIsSimultaneous(q, keys, n - 1);
      ReplaceOneMore(q, keys[..n - 1], keys[n - 1]);
      assert keys[..n] == keys[..n - 1] + [keys[n - 1]];
    }
  }

  lemma NoKeys(q: string)
    ensures Show(Tokens(q, [])) == q
  {
    if q == "" {
    } else {
      NoKeys(q[1..]);
      assert Tokens(q, [])[1..] == Tokens(q[1..], []);
    }
  }

  // ---------------------------------------------------------------- the words

  lemma {:induction false} SkipWordChars(s: string, key: string, n: nat)
    requires n <= |s| && forall i :: 0 <= i < n ==> IsWordChar(s[i])
    ensures HasMatch(s, key) == HasMatch(s[n..], key)
  {
    if n == 0 {
    } else {
      SkipWordChars(s[1..], key, n - 1);
      assert s[1..][n - 1..] == s[n..];
    }
  }

  /** A word matches a key exactly when the scan finds that key in the word. */
  lemma {:induction false} MatchIsParam(w: string, keys: seq<string>, k: nat)
    requires AreNames(keys) && DistinctIgnoringCase(keys) && k < |keys|
    ensures HasMatch(w, keys[k]) <==> k in Params(Tokens(w, keys))
    decreases |w|
  {
    if w != "" {
      var ts := Tokens(w, keys);
      if w[0] == '@' {
        var n := WordRun(w[1..]);
        var name := w[1..][..n];
        var i := Find(keys, name);
        MatchIsWholeName(w, keys[k]);
        if i < |keys| {
          MatchIsParam(w[1..][n..], keys, k);
          SkipWordChars(w[1..], keys[k], n);
          assert ts[1..] == Tokens(w[1..][n..], keys);
          if SameIgnoringCase(keys[k], name) {
            SameNameSameKey(keys[k], keys[i], name);
            SameNameSameKey(keys[i], keys[k], name);
          }
        } else {
          MatchIsParam(w[1..], keys, k);
          assert ts[1..] == Tokens(w[1..], keys);
        }
      } else {
        MatchIsParam(w[1..], keys, k);
        assert ts[1..] == Tokens(w[1..], keys);
      }
    }
  }

  lemma {:induction false} MatchIsCandidate(w: string, key: string)
    requires IsName(key) && HasMatch(w, key)
    ensures Candidate(w)
  {
    if MatchAt(w, key) {
      assert Lower(w[1..1 + |key|][|key| - 1]) == Lower(key[|key| - 1]);
      assert Boundary(w, 1 + |key|);
    } else {
      MatchIsCandidate(w[1..], key);
      var p, b :| 0 <= p < b <= |w[1..]| && w[1..][p] == '@' && Boundary(w[1..], b);
      assert w[p + 1] == '@' && Boundary(w, b + 1);
    }
  }

  /** The members of `ps` below `n`, in increasing order and once each. */
  function Ascending(ps: seq<nat>, n: nat): seq<nat> {
    if n == 0 then [] else if n - 1 in ps then Ascending(ps, n - 1) + [n - 1] else Ascending(ps, n - 1)
  }

  predicate StrictlyUp(ps: seq<nat>, last: int) {
    (forall i :: 0 <= i < |ps| ==> last < ps[i]) && forall i, j :: 0 <= i < j < |ps| ==> ps[i] < ps[j]
  }

  function ValuesOf(ids: seq<nat>, keys: seq<string>, values: map<string, Value>): (vs: seq<Value>)
    requires Covers(values, keys) && forall i :: 0 <= i < |ids| ==> ids[i] < |keys|
    ensures |vs| == |ids| && forall i :: 0 <= i < |ids| ==> vs[i] == Encode(values[keys[ids[i]]])
  {
    seq(|ids|, i requires 0 <= i < |ids| => Encode(values[keys[ids[i]]]))
  }

  lemma ValuesOfConcat(a: seq<nat>, b: seq<nat>, keys: seq<string>, values: map<string, Value>)
    requires Covers(values, keys)
    requires forall i :: 0 <= i < |a| ==> a[i] < |keys|
    requires forall i :: 0 <= i < |b| ==> b[i] < |keys|
    ensures forall i :: 0 <= i < |a + b| ==> (a + b)[i] < |keys|
    ensures ValuesOf(a + b, keys, values) == ValuesOf(a, keys, values) + ValuesOf(b, keys, values)
  {}

  lemma AscendingInRange(ps: seq<nat>, n: nat)
    ensures forall i :: 0 <= i < |Ascending(ps, n)| ==> Ascending(ps, n)[i] < n && Ascending(ps, n)[i] in ps
  {}

  lemma {:induction false} WordValuesAscending(w: string, keys: seq<string>, n: nat, values: map<string, Value>)
    requires AreNames(keys) && DistinctIgnoringCase(keys) && n <= |keys| && Covers(values, keys)
    ensures forall i ::
            0 <= i < |Ascending(Params(Tokens(w, keys)), n)| ==> Ascending(Params(Tokens(w, keys)), n)[i] < n
    ensures WordValues(w, keys, n, values) == ValuesOf(Ascending(Params(Tokens(w, keys)), n), keys, values)
  {
    hide Tokens, Params, HasMatch, Encode;
    AscendingInRange(Params(Tokens(w, keys)), n);
    if n > 0 {
      WordValuesAscending(w, keys, n - 1, values);
      MatchIsParam(w, keys, n - 1);
      if HasMatch(w, keys[n - 1]) {
        ValuesOfConcat(Ascending(Params(Tokens(w, keys)), n - 1), [n - 1], keys, values);
        assert ValuesOf([n - 1], keys, values) == [Encode(values[keys[n - 1]])];
      }
    }
  }

  /** The largest member of an increasing list is its last. */
  lemma UpInit(ps: seq<nat>, n: nat) returns (init: seq<nat>)
    requires StrictlyUp(ps, -1) && n in ps && forall i :: 0 <= i < |ps| ==> ps[i] <= n
    ensures ps == init + [n]
    ensures StrictlyUp(init, -1) && forall i :: 0 <= i < |init| ==> init[i] < n
  {
    var i :| 0 <= i < |ps| && ps[i] == n;
    var last := ps[|ps| - 1];
    assert i == |ps| - 1;
    init := ps[..|ps| - 1];
  }

  /** An increasing list is its own ascending list. */
  lemma {:induction false} AscendingOfUp(ps: seq<nat>, n: nat)
    requires StrictlyUp(ps, -1) && forall i :: 0 <= i < |ps| ==> ps[i] < n
    ensures Ascending(ps, n) == ps
    decreases n
  {
    if ps == [] {
      AscendingOfNothing(n);
    } else {
      var first := ps[0];
      if n - 1 in ps {
        var init := UpInit(ps, n - 1);
        AscendingOfUp(init, n - 1);
        AscendingSameMembers(ps, init, n - 1);
      } else {
        AscendingOfUp(ps, n - 1);
      }
    }
  }

  lemma {:induction n} AscendingOfNothing(n: nat)
    ensures Ascending([], n) == []
  {}

  lemma AscendingSameMembers(a: seq<nat>, b: seq<nat>, n: nat)
    requires forall x :: 0 <= x < n ==> (x in a <==> x in b)
    ensures Ascending(a, n) == Ascending(b, n)
  {}

  lemma {:induction false} AscendingIsUp(ps: seq<nat>, n: nat)
    ensures StrictlyUp(Ascending(ps, n), -1)
    ensures forall i :: 0 <= i < |Ascending(ps, n)| ==> Ascending(ps, n)[i] < n
  {
    if n == 0 {
    } else {
      AscendingIsUp(ps, n - 1);
    }
  }

  /** An ascending list is never longer than the list it comes from. */
  lemma {:induction false} AscendingIsNoLonger(ps: seq<nat>, n: nat)
    ensures |Ascending(ps, n)| <= |ps|
    decreases n
  {
    if n > 0 {
      if n - 1 in ps {
        var i :| 0 <= i < |ps| && ps[i] == n - 1;
        var others := ps[..i] + ps[i + 1..];
        assert forall x :: 0 <= x < n - 1 ==> (x in ps <==> x in others);
        AscendingSameMembers(ps, others, n - 1);
        AscendingIsNoLonger(others, n - 1);
      } else {
        AscendingIsNoLonger(ps, n - 1);
      }
    }
  }

  // ---------------------------------------------------------------- from words to the whole query

  predicate SpaceFree(s: string) {
    forall i :: 0 <= i < |s| ==> !IsSpace(s[i])
  }

  lemma RunStopsAtSpace(u: string, v: string)
    requires v != "" && !IsWordChar(v[0])
    ensures WordRun(u + v) == WordRun(u)
  {
    RunIs(u + v, WordRun(u));
  }

  /** The scan of a text does not look past a character that is no part of a name. */
  lemma {:induction false} TokensConcat(u: string, v: string, keys: seq<string>)
    requires v != "" ==> !IsWordChar(v[0])
    ensures Tokens(u + v, keys) == Tokens(u, keys) + Tokens(v, keys)
    decreases |u|
  {
    if u == "" {
      assert u + v == v;
    } else if v == "" {
      assert u + v == u;
    } else {
      hide Tokens, WordRun, Find;
      var n := WordRun(u[1..]);
      RunStopsAtSpace(u[1..], v);
      SplitsBeforeEnd(u, v, n);
      if u[0] == '@' && Find(keys, u[1..][..n]) < |keys| {
        TokensConcat(u[1..][n..], v, keys);
        ScanAtName(u, n, keys);
        ScanAtName(u + v, n, keys);
        Assoc([Param(Find(keys, u[1..][..n]))], Tokens(u[1..][n..], keys), Tokens(v, keys));
      } else {
        TokensConcat(u[1..], v, keys);
        ScanAtChar(u, n, keys);
        ScanAtChar(u + v, n, keys);
        Assoc([Ch(u[0])], Tokens(u[1..], keys), Tokens(v, keys));
      }
    }
  }

  lemma SplitsBeforeEnd(u: string, v: string, n: nat)
    requires u != "" && n <= |u[1..]|
    ensures (u + v)[0] == u[0] && (u + v)[1..] == u[1..] + v
    ensures (u[1..] + v)[..n] == u[1..][..n] && (u[1..] + v)[n..] == u[1..][n..] + v
  {}

  lemma ScanAtChar(q: string, n: nat, keys: seq<string>)
    requires q != "" && n == WordRun(q[1..]) && (q[0] != '@' || Find(keys, q[1..][..n]) >= |keys|)
    ensures Tokens(q, keys) == [Ch(q[0])] + Tokens(q[1..], keys)
  {}

  lemma {:induction false} ParamsConcat(a: seq<Token>, b: seq<Token>)
    ensures Params(a + b) == Params(a) + Params(b)
  {
    if a == [] { assert a + b == b; } else { assert (a + b)[1..] == a[1..] + b; ParamsConcat(a[1..], b); }
  }

  function FirstSpace(s: string): (n: nat)
    ensures n <= |s| && SpaceFree(s[..n]) && (n < |s| ==> IsSpace(s[n]))
  {
    if s == "" || IsSpace(s[0]) then 0
    else
      var n := FirstSpace(s[1..]);
      assert s[..n + 1] == [s[0]] + s[1..][..n];
      n + 1
  }

  lemma {:induction false} SplitAtFirstSpace(s: string)
    ensures FirstSpace(s) == |s| ==> Split(s) == [s]
    ensures FirstSpace(s) < |s| ==> Split(s) == [s[..FirstSpace(s)]] + Split(s[FirstSpace(s) + 1..])
  {
    if s != "" && !IsSpace(s[0]) {
      SplitAtFirstSpace(s[1..]);
      var n := FirstSpace(s[1..]);
      assert FirstSpace(s) == n + 1;
      assert s[..n + 1] == [s[0]] + s[1..][..n];
      assert s == [s[0]] + s[1..];
      if n < |s[1..]| { assert s[1..][n + 1..] == s[n + 2..]; }
    }
  }

  lemma {:induction false} BoundValuesOfCons(w: string, rest: seq<string>, keys: seq<string>,
          values: map<string, Value>)
    requires AreNames(keys) && Covers(values, keys)
    ensures BoundValues([w] + rest, keys, values)
            == WordValues(w, keys, |keys|, values) + BoundValues(rest, keys, values)
    decreases |rest|
  {
    hide WordValues, Candidate;
    if rest == [] {
      if !Candidate(w) { NonCandidateIsSilent(w, keys, |keys|, values); }
      assert ([w] + rest)[..0] == [];
    } else {
      var init := rest[..|rest| - 1];
      BoundValuesOfCons(w, init, keys, values);
      assert ([w] + rest)[..|rest|] == [w] + init && ([w] + rest)[|rest|] == rest[|rest| - 1];
      Assoc(WordValues(w, keys, |keys|, values), BoundValues(init, keys, values),
        WordValues(rest[|rest| - 1], keys, |keys|, values));
    }
  }

  lemma {:induction false} NonCandidateIsSilent(w: string, keys: seq<string>, n: nat, values: map<string, Value>)
    requires AreNames(keys) && n <= |keys| && Covers(values, keys) && !Candidate(w)
    ensures WordValues(w, keys, n, values) == []
  {
    if n == 0 {
    } else {
      NonCandidateIsSilent(w, keys, n - 1, values);
      if HasMatch(w, keys[n - 1]) { MatchIsCandidate(w, keys[n - 1]); assert false; }
    }
  }

  /** The keys the query asks for, as the word loop finds them: ascending within every word. */
  function AskedByWords(q: string, keys: seq<string>): seq<nat>
    decreases |q|
  {
    var n := FirstSpace(q);
    var asked := Ascending(Params(Tokens(q[..n], keys)), |keys|);
    if n < |q| then asked + AskedByWords(q[n + 1..], keys) else asked
  }

  lemma {:induction false} BoundIsAskedByWords(q: string, keys: seq<string>, values: map<string, Value>)
    requires AreNames(keys) && DistinctIgnoringCase(keys) && Covers(values, keys)
    ensures forall i :: 0 <= i < |AskedByWords(q, keys)| ==> AskedByWords(q, keys)[i] < |keys|
    ensures BoundValues(Split(q), keys, values) == ValuesOf(AskedByWords(q, keys), keys, values)
    decreases |q|
  {
    hide Tokens, Params, Ascending, WordValues, Split, Encode;
    var n := FirstSpace(q);
    SplitAtFirstSpace(q);
    WordValuesAscending(q[..n], keys, |keys|, values);
    if n < |q| {
      BoundIsAskedByWords(q[n + 1..], keys, values);
      BoundValuesOfCons(q[..n], Split(q[n + 1..]), keys, values);
      ValuesOfConcat(Ascending(Params(Tokens(q[..n], keys)), |keys|), AskedByWords(q[n + 1..], keys), keys, values);
    } else {
      BoundValuesOfCons(q, [], keys, values);
      assert [q] + [] == Split(q);
      assert q[..n] == q;
    }
  }

  lemma ParamsInRange(q: string, keys: seq<string>)
    ensures forall i :: 0 <= i < |Params(Tokens(q, keys))| ==> Params(Tokens(q, keys))[i] < |keys|
    decreases |q|
  {
    if q == "" {
    } else {
      ParamsInRange(q[1..], keys);
      ParamsInRange(q[1..][WordRun(q[1..])..], keys);
      var ts := Tokens(q, keys);
      assert ts[1..] == Tokens(q[1..], keys) || ts[1..] == Tokens(q[1..][WordRun(q[1..])..], keys);
    }
  }

  /** Cutting the scan at the first space. */
  lemma TokensAtFirstSpace(q: string, keys: seq<string>)
    ensures FirstSpace(q) < |q| ==>
              Tokens(q, keys) == Tokens(q[..FirstSpace(q)], keys)
                + ([Ch(q[FirstSpace(q)])] + Tokens(q[FirstSpace(q) + 1..], keys))
    ensures FirstSpace(q) == |q| ==> q[..FirstSpace(q)] == q
  {
    var n := FirstSpace(q);
    if n < |q| {
      assert q == q[..n] + q[n..];
      TokensConcat(q[..n], q[n..], keys);
      assert q[n..][1..] == q[n + 1..];
    }
  }

  predicate HasNoSpace(ts: seq<Token>) {
    forall i :: 0 <= i < |ts| && ts[i].Ch? ==> !IsSpace(ts[i].c)
  }

  lemma SpaceFreeTokens(s: string, keys: seq<string>)
    requires SpaceFree(s)
    ensures HasNoSpace(Tokens(s, keys))
    decreases |s|
  {
    if s == "" {
    } else {
      SpaceFreeTokens(s[1..], keys);
      SpaceFreeTokens(s[1..][WordRun(s[1..])..], keys);
    }
  }

  lemma {:induction false} OrderOfOneWord(ts: seq<Token>, last: int, rest: seq<Token>)
    requires HasNoSpace(ts) && (rest == [] || (rest[0].Ch? && IsSpace(rest[0].c)))
    ensures WordsInKeyOrder(ts + rest, last) <==>
            StrictlyUp(Params(ts), last) && (rest == [] || WordsInKeyOrder(rest[1..], -1))
  {
    if ts == [] {
      assert ts + rest == rest;
    } else {
      assert (ts + rest)[0] == ts[0] && (ts + rest)[1..] == ts[1..] + rest;
      OrderOfOneWord(ts[1..], if ts[0].Param? then ts[0].key else last, rest);
      if ts[0].Param? { UpCons(ts[0].key, Params(ts[1..]), last); } else { assert Params(ts) == Params(ts[1..]); }
    }
  }

  lemma UpCons(x: nat, ps: seq<nat>, last: int)
    ensures StrictlyUp([x] + ps, last) <==> last < x && StrictlyUp(ps, x)
  {
    var all := [x] + ps;
    if StrictlyUp(all, last) {
      forall i | 0 <= i < |ps| ensures x < ps[i] { assert all[0] < all[i + 1]; }
      forall i, j | 0 <= i < j < |ps| ensures ps[i] < ps[j] { assert all[i + 1] < all[j + 1]; }
      assert last < all[0];
    }
  }

  /** The word loop asks for the parameters of the query in text order exactly when every word
      holds its parameters once each and in key order. */
  lemma {:induction false} WordLoopOrder(q: string, keys: seq<string>)
    ensures |AskedByWords(q, keys)| <= |Params(Tokens(q, keys))|
    ensures AskedByWords(q, keys) == Params(Tokens(q, keys)) <==> WordsInKeyOrder(Tokens(q, keys), -1)
    decreases |q|
  {
    var n := FirstSpace(q);
    TokensAtFirstSpace(q, keys);
    if n < |q| {
      WordLoopOrder(q[n + 1..], keys);
      NextWord(q[..n], q[n], Tokens(q[n + 1..], keys), AskedByWords(q[n + 1..], keys), keys);
    } else {
      OneWordOrder(q, keys, []);
      assert Tokens(q, keys) + [] == Tokens(q, keys);
      AscendingIsNoLonger(Params(Tokens(q, keys)), |keys|);
      assert AskedByWords(q, keys) == Ascending(Params(Tokens(q, keys)), |keys|);
    }
  }

  lemma NextWord(w: string, space: char, after: seq<Token>, asked: seq<nat>, keys: seq<string>)
    requires SpaceFree(w) && IsSpace(space)
    requires |asked| <= |Params(after)| && (asked == Params(after) <==> WordsInKeyOrder(after, -1))
    ensures var all := Tokens(w, keys) + ([Ch(space)] + after);
            var found := Ascending(Params(Tokens(w, keys)), |keys|) + asked;
            |found| <= |Params(all)| && (found == Params(all) <==> WordsInKeyOrder(all, -1))
  {
    var ts := Tokens(w, keys);
    AscendingIsNoLonger(Params(ts), |keys|);
    ParamsConcat(ts, [Ch(space)] + after);
    assert ([Ch(space)] + after)[1..] == after;
    assert Params([Ch(space)] + after) == Params(after);
    OneWordOrder(w, keys, [Ch(space)] + after);
    SameLengthsSplit(Ascending(Params(ts), |keys|), asked, Params(ts), Params(after));
  }

  lemma OneWordOrder(w: string, keys: seq<string>, rest: seq<Token>)
    requires SpaceFree(w) && (rest == [] || (rest[0].Ch? && IsSpace(rest[0].c)))
    ensures WordsInKeyOrder(Tokens(w, keys) + rest, -1) <==>
            Ascending(Params(Tokens(w, keys)), |keys|) == Params(Tokens(w, keys))
              && (rest == [] || WordsInKeyOrder(rest[1..], -1))
  {
    var ps := Params(Tokens(w, keys));
    ParamsInRange(w, keys);
    SpaceFreeTokens(w, keys);
    AscendingIsUp(ps, |keys|);
    if StrictlyUp(ps, -1) { AscendingOfUp(ps, |keys|); }
    OrderOfOneWord(Tokens(w, keys), -1, rest);
  }

  lemma SameLengthsSplit<T>(a: seq<T>, b: seq<T>, c: seq<T>, d: seq<T>)
    requires |a| <= |c| && |b| <= |d|
    ensures a + b == c + d <==> a == c && b == d
  {
    if a + b == c + d {
      assert |a| == |c|;
      assert a == (a + b)[..|a|] && c == (c + d)[..|c|];
      assert b == (a + b)[|a|..] && d == (c + d)[|c|..];
    }
  }

  // ---------------------------------------------------------------- binding

  ghost predicate InRange(ts: seq<Token>, n: nat) {
    && (forall i :: 0 <= i < |ts| && ts[i].Param? ==> ts[i].key < n)
    && (forall i :: 0 <= i < |Params(ts)| ==> Params(ts)[i] < n)
  }

  /** The rewritten text binds to the substituted query exactly when it shows no other `?` and the
      values come in text order. */
  lemma {:induction false} BindShown(ts: seq<Token>, vals: seq<Value>, keys: seq<string>, values: map<string, Value>)
    requires Covers(values, keys) && InRange(ts, |keys|)
    ensures Bind(Show(ts), vals) == Some(Substitute(ts, keys, values)) <==>
            Ch('?') !in ts && vals == ValuesOf(Params(ts), keys, values)
    decreases ts, 1
  {
    if ts != [] {
      assert Show(ts)[1..] == Show(ts[1..]);
      assert ts == [ts[0]] + ts[1..];
      if ts[0].Param? {
        BindShownParam(ts, vals, keys, values);
      } else {
        assert Params(ts) == Params(ts[1..]);
        assert Substitute(ts, keys, values)[0] == Lit(ts[0].c);
        if ts[0].c == '?' {
          assert Bind(Show(ts), vals).None? || Bind(Show(ts), vals).value[0].Val?;
        } else {
          BindShown(ts[1..], vals, keys, values);
          ConsIsInjective(Lit(ts[0].c), Bind(Show(ts[1..]), vals), Substitute(ts[1..], keys, values));
          assert Ch('?') in ts <==> Ch('?') in ts[1..];
        }
      }
    }
  }

  lemma {:induction false} BindShownParam(ts: seq<Token>, vals: seq<Value>, keys: seq<string>,
          values: map<string, Value>)
    requires Covers(values, keys) && InRange(ts, |keys|)
    requires ts != [] && ts[0].Param?
    ensures Bind(Show(ts), vals) == Some(Substitute(ts, keys, values)) <==>
            Ch('?') !in ts && vals == ValuesOf(Params(ts), keys, values)
    decreases ts, 0
  {
    var rest := ts[1..];
    assert Show(ts) == "?" + Show(rest) && Show(ts)[1..] == Show(rest);
    assert Params(ts) == [ts[0].key] + Params(rest);
    assert InRange(rest, |keys|) by {
      assert forall i :: 0 <= i < |Params(rest)| ==> Params(rest)[i] == Params(ts)[i + 1];
    }
    var own := Encode(values[keys[ts[0].key]]);
    ValuesOfConcat([ts[0].key], Params(rest), keys, values);
    assert ValuesOf([ts[0].key], keys, values) == [own];
    assert Ch('?') in ts <==> Ch('?') in rest by { assert ts == [ts[0]] + rest; }
    if vals != [] {
      BindShown(rest, vals[1..], keys, values);
      assert vals == [vals[0]] + vals[1..];
      HeadAndTail(vals[0], vals[1..], own, ValuesOf(Params(rest), keys, values));
      var r := Bind(Show(rest), vals[1..]);
      if r.Some? { HeadAndTail(Val(vals[0]), r.value, Val(own), Substitute(rest, keys, values)); }
    }
  }

  lemma HeadAndTail<T>(x: T, a: seq<T>, y: T, b: seq<T>)
    ensures [x] + a == [y] + b <==> x == y && a == b
  {
    if [x] + a == [y] + b {
      assert x == ([x] + a)[0] && y == ([y] + b)[0];
      assert a == ([x] + a)[1..] && b == ([y] + b)[1..];
    }
  }

  lemma ConsIsInjective(x: Piece, a: Option<seq<Piece>>, b: seq<Piece>)
    ensures a.Some? ==> ([x] + a.value == [x] + b <==> a.value == b)
  {
    if a.Some? { HeadAndTail(x, a.value, x, b); }
  }

  lemma MarksOfText(q: string, keys: seq<string>)
    ensures Ch('?') in Tokens(q, keys) <==> '?' in q
    decreases |q|
  {
    if q == "" {
    } else {
      assert q == [q[0]] + q[1..];
      MarksOfText(q[1..], keys);
      var n := WordRun(q[1..]);
      MarksOfText(q[1..][n..], keys);
      assert q[1..] == q[1..][..n] + q[1..][n..];
    }
  }

  /** For any values: a query free of `?` whose words hold their parameters once each and in key
      order is sent with every name standing for its own value. */
  lemma BindingIsSubstitution(q: string, keys: seq<string>, values: map<string, Value>)
    requires AreNames(keys) && DistinctIgnoringCase(keys) && Covers(values, keys)
    requires '?' !in q && WordsInKeyOrder(Tokens(q, keys), -1)
    ensures forall i :: 0 <= i < |Tokens(q, keys)| && Tokens(q, keys)[i].Param? ==> Tokens(q, keys)[i].key < |keys|
    ensures Bind(ReplaceFirst(q, keys, |keys|), BoundValues(Split(q), keys, values))
            == Some(Substitute(Tokens(q, keys), keys, values))
  {
    assert keys[..|keys|] == keys;
    ReplacementIsSimultaneous(q, keys, |keys|);
    BoundIsAskedByWords(q, keys, values);
    WordLoopOrder(q, keys);
    TokensInRange(q, keys);
    MarksOfText(q, keys);
    BindShown(Tokens(q, keys), BoundValues(Split(q), keys, values), keys, values);
  }

  /** The values that tell every key apart. */
  function Witness(keys: seq<string>): (m: map<string, Value>)
    ensures Covers(m, keys)
  {
    map k | k in keys :: Num(Find(keys, k))
  }

  lemma WitnessTellsKeysApart(keys: seq<string>, i: nat)
    requires DistinctIgnoringCase(keys) && i < |keys|
    ensures Encode(Witness(keys)[keys[i]]) == Num(i)
  {
    var j := Find(keys, keys[i]);
    assert SameIgnoringCase(keys[i], keys[i]);
    assert j == i;
  }

  /** Exactly when binding is substitution whatever the values are. */
  lemma BindingIsSubstitutionExactlyWhen(q: string, keys: seq<string>)
    requires AreNames(keys) && DistinctIgnoringCase(keys)
    ensures forall i :: 0 <= i < |Tokens(q, keys)| && Tokens(q, keys)[i].Param? ==> Tokens(q, keys)[i].key < |keys|
    ensures (forall values | Covers(values, keys) ::
               Bind(ReplaceFirst(q, keys, |keys|), BoundValues(Split(q), keys, values))
               == Some(Substitute(Tokens(q, keys), keys, values)))
            <==> '?' !in q && WordsInKeyOrder(Tokens(q, keys), -1)
  {
    TokensInRange(q, keys);
    var ts := Tokens(q, keys);
    if '?' !in q && WordsInKeyOrder(ts, -1) {
      forall values | Covers(values, keys)
        ensures Bind(ReplaceFirst(q, keys, |keys|), BoundValues(Split(q), keys, values))
                == Some(Substitute(ts, keys, values))
      {
        BindingIsSubstitution(q, keys, values);
      }
    }
    if forall values | Covers(values, keys) ::
         Bind(ReplaceFirst(q, keys, |keys|), BoundValues(Split(q), keys, values)) == Some(Substitute(ts, keys, values))
    {
      OnlyWhen(q, keys);
    }
  }

  lemma OnlyWhen(q: string, keys: seq<string>)
    requires AreNames(keys) && DistinctIgnoringCase(keys)
    requires forall i :: 0 <= i < |Tokens(q, keys)| && Tokens(q, keys)[i].Param? ==> Tokens(q, keys)[i].key < |keys|
    requires Bind(ReplaceFirst(q, keys, |keys|), BoundValues(Split(q), keys, Witness(keys)))
             == Some(Substitute(Tokens(q, keys), keys, Witness(keys)))
    ensures '?' !in q && WordsInKeyOrder(Tokens(q, keys), -1)
  {
    var values, ts := Witness(keys), Tokens(q, keys);
    assert keys[..|keys|] == keys;
    ReplacementIsSimultaneous(q, keys, |keys|);
    BoundIsAskedByWords(q, keys, values);
    ParamsInRange(q, keys);
    BindShown(ts, BoundValues(Split(q), keys, values), keys, values);
    MarksOfText(q, keys);
    WordLoopOrder(q, keys);
    WitnessTellsListsApart(keys, AskedByWords(q, keys), Params(ts));
  }

  lemma WitnessTellsListsApart(keys: seq<string>, a: seq<nat>, b: seq<nat>)
    requires DistinctIgnoringCase(keys)
    requires (forall i :: 0 <= i < |a| ==> a[i] < |keys|) && (forall i :: 0 <= i < |b| ==> b[i] < |keys|)
    requires ValuesOf(a, keys, Witness(keys)) == ValuesOf(b, keys, Witness(keys))
    ensures a == b
  {
    forall i | 0 <= i < |a| ensures a[i] == b[i] {
      WitnessTellsKeysApart(keys, a[i]);
      WitnessTellsKeysApart(keys, b[i]);
      assert ValuesOf(a, keys, Witness(keys))[i] == ValuesOf(b, keys, Witness(keys))[i];
    }
  }

  /** Two parameters in one word, in another order than the keys: `@b,@a` holds no `?` and yet is not
      bound correctly for all values. */
  lemma TwoInOneWord(a: string, b: string)
    requires IsName(a) && IsName(b) && !SameIgnoringCase(a, b)
    ensures var q, keys := "@" + b + ("," + ("@" + a + "")), [a, b];
            && Tokens(q, keys) == [Param(1), Ch(','), Param(0)]
            && !forall values | Covers(values, keys) ::
                  Bind(ReplaceFirst(q, keys, |keys|), BoundValues(Split(q), keys, values))
                  == Some(Substitute(Tokens(q, keys), keys, values))
  {
    hide Tokens, Find, WordRun, Bind, ReplaceFirst, BoundValues, Split, Substitute;
    var keys, second := [a, b], "@" + a + "";
    var q := "@" + b + ("," + second);
    FindBoth(a, b);
    ParamFirst(b, "," + second, keys);
    CharFirst(',', second, keys);
    ParamFirst(a, "", keys);
    NothingLeft(keys);
    OutOfOrder();
    BindingIsSubstitutionExactlyWhen(q, keys);
  }

  lemma OutOfOrder()
    ensures !WordsInKeyOrder([Param(1), Ch(','), Param(0)], -1)
  {
    var ts := [Param(1), Ch(','), Param(0)];
    assert ts[1..] == [Ch(','), Param(0)] && ts[1..][1..] == [Param(0)];
  }

  lemma NothingLeft(keys: seq<string>)
    ensures Tokens("", keys) == []
  {}

  lemma ScanAtName(q: string, n: nat, keys: seq<string>)
    requires q != "" && q[0] == '@' && n == WordRun(q[1..]) && Find(keys, q[1..][..n]) < |keys|
    ensures Tokens(q, keys) == [Param(Find(keys, q[1..][..n]))] + Tokens(q[1..][n..], keys)
  {}

  lemma WithoutFirst<T>(one: seq<T>, a: seq<T>, b: seq<T>)
    requires |one| == 1
    ensures (one + a + b)[0] == one[0] && (one + a + b)[1..] == a + b
  {}

  lemma ParamFirst(name: string, rest: string, keys: seq<string>)
    requires IsName(name) && (rest == "" || !IsWordChar(rest[0])) && Find(keys, name) < |keys|
    ensures Tokens("@" + name + rest, keys) == [Param(Find(keys, name))] + Tokens(rest, keys)
  {
    hide Find, WordRun, Tokens;
    var q := "@" + name + rest;
    WithoutFirst("@", name, rest);
    RunIs(name + rest, |name|);
    assert (name + rest)[..|name|] == name && (name + rest)[|name|..] == rest;
    ScanAtName(q, |name|, keys);
  }

  lemma CharFirst(c: char, rest: string, keys: seq<string>)
    requires c != '@'
    ensures Tokens([c] + rest, keys) == [Ch(c)] + Tokens(rest, keys)
  {
    assert ([c] + rest)[1..] == rest;
  }

  lemma FindBoth(a: string, b: string)
    requires !SameIgnoringCase(a, b)
    ensures Find([a, b], b) == 1 && Find([a, b], a) == 0
  {
    assert SameIgnoringCase(a, a) && SameIgnoringCase(b, b);
    assert [a, b][1..] == [b];
  }
}

/**
 String arrays in one text column: src/lib/base-models/base-sql.model.ts joins them with `;;;`, the
 setters of src/modules/proposal/models/proposal.model.ts split a single text again. A text read from
 the column reaches the setter as an array of one element.
 */
module ArrayCodec {
  import opened Option

  const DELIMITER := ";;;"

  function Join(a: seq<string>): string {
    if |a| == 0 then "" else if |a| == 1 then a[0] else a[0] + DELIMITER + Join(a[1..])
  }

  /** What is stored: an empty text becomes a missing value. */
  function Stored(a: seq<string>): Option<string> {
    if Join(a) == "" then None else Some(Join(a))
  }

  predicate DelimiterAt(s: string, i: nat) {
    i + 3 <= |s| && s[i] == ';' && s[i + 1] == ';' && s[i + 2] == ';'
  }

  /** The first delimiter at `from` or later. */
  function FirstDelimiter(s: string, from: nat): (r: Option<nat>)
    requires from <= |s|
    ensures r.Some? ==>
              from <= r.value && DelimiterAt(s, r.value) && forall i :: from <= i < r.value ==> !DelimiterAt(s, i)
    ensures r.None? ==> forall i :: from <= i ==> !DelimiterAt(s, i)
    decreases |s| - from
  {
    if DelimiterAt(s, from) then Some(from) else if from == |s| then None else FirstDelimiter(s, from + 1)
  }

  /** Splitting takes delimiters from the left, without overlap. */
  function Split(s: string): (r: seq<string>)
    ensures |r| >= 1
  {
    match FirstDelimiter(s, 0)
    case None => [s]
    case Some(i) => [s[..i]] + Split(s[i + 3..])
  }

  function Setter(v: seq<string>): seq<string> {
    if |v| == 1 then Split(v[0]) else v
  }

  /** The array that is read back. */
  function Restored(column: Option<string>): Option<seq<string>> {
    match column
    case None => None
    case Some(s) => Some(Setter([s]))
  }

  predicate HoldsDelimiter(s: string) {
    exists i :: 0 <= i < |s| && DelimiterAt(s, i)
  }

  predicate EndsInSemicolon(s: string) {
    |s| > 0 && s[|s| - 1] == ';'
  }

  /** No element contains the delimiter and none but the last ends in a semicolon. */
  predicate Clean(a: seq<string>) {
    && (forall i :: 0 <= i < |a| ==> !HoldsDelimiter(a[i]))
    && forall i :: 0 <= i < |a| - 1 ==> !EndsInSemicolon(a[i])
  }

  /** The delimiter behind the first element is the first one exactly when that element is clean. */
  lemma FirstDelimiterIs(head: string, rest: string)
    ensures FirstDelimiter(head + DELIMITER + rest, 0) == Some(|head|)
            <==> !HoldsDelimiter(head) && !EndsInSemicolon(head)
  {
    var s := head + DELIMITER + rest;
    assert s == head + (DELIMITER + rest);
    assert DelimiterAt(s, |head|);
    assert forall i :: 0 <= i < |head| ==> s[i] == head[i];
    if HoldsDelimiter(head) {
      var i :| 0 <= i < |head| && DelimiterAt(head, i);
      assert DelimiterAt(s, i);
    } else if EndsInSemicolon(head) {
      assert DelimiterAt(s, |head| - 1);
    } else {
      forall i | 0 <= i < |head| ensures !DelimiterAt(s, i) {
        if i + 3 <= |head| { DelimiterWithin(head, DELIMITER + rest, i); }
      }
    }
  }

  lemma DelimiterWithin(head: string, rest: string, i: nat)
    requires i + 3 <= |head|
    ensures DelimiterAt(head + rest, i) <==> DelimiterAt(head, i)
  {}

  lemma CleanHeadAndTail(a: seq<string>)
    requires |a| >= 2
    ensures Clean(a) <==> !HoldsDelimiter(a[0]) && !EndsInSemicolon(a[0]) && Clean(a[1..])
  {
    assert forall i :: 1 <= i < |a| ==> a[i] == a[1..][i - 1];
  }

  /** Joining and splitting gives the array back exactly when it is clean. */
  lemma {:induction false} SplitOfJoin(a: seq<string>)
    requires |a| >= 1
    ensures Split(Join(a)) == a <==> Clean(a)
  {
    if |a| == 1 {
      assert Clean(a) <==> !HoldsDelimiter(a[0]);
      match FirstDelimiter(a[0], 0) {
        case None => assert Split(a[0]) == [a[0]];
        case Some(i) => assert DelimiterAt(a[0], i);
      }
    } else {
      var s, rest := Join(a), Join(a[1..]);
      SplitOfJoin(a[1..]);
      CleanHeadAndTail(a);
      FirstDelimiterIs(a[0], rest);
      Pieces(a[0], rest);
      if FirstDelimiter(s, 0) == Some(|a[0]|) {
        assert a == [a[0]] + a[1..];
      } else {
        assert DelimiterAt(s, |a[0]|);
        assert |Split(s)[0]| != |a[0]|;
      }
    }
  }

  lemma Pieces(head: string, rest: string)
    ensures (head + DELIMITER + rest)[..|head|] == head && (head + DELIMITER + rest)[|head| + 3..] == rest
    ensures DelimiterAt(head + DELIMITER + rest, |head|)
  {}

  /** An array survives being written and read exactly when it is clean and is not empty or the array of
      one empty text, which are both stored as a missing value. */
  lemma RestoredExactlyWhen(a: seq<string>)
    ensures Restored(Stored(a)) == Some(a) <==> a != [] && a != [""] && Clean(a)
  {
    if |a| >= 1 { SplitOfJoin(a); }
    if |a| == 1 { assert a == [a[0]]; }
  }

  /** An element that ends in a semicolon gives its semicolon to the next one. */
  lemma SemicolonMoves()
    ensures Restored(Stored(["a;", "b"])) == Some(["a", ";b"])
  {
    var s := "a;;;;b";
    assert Join(["a;", "b"]) == s;
    assert DelimiterAt(s, 1) && !DelimiterAt(s, 0);
    assert FirstDelimiter(s, 0) == Some(1);
    assert s[4..] == ";b" && s[..1] == "a";
    assert FirstDelimiter(";b", 0) == None;
    assert Split(";b") == [";b"];
    assert Split(s) == ["a"] + [";b"] == ["a", ";b"];
    assert Setter([s]) == Split(s);
  }
}

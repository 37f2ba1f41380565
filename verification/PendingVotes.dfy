/**
 One user's vote on one proposal, together with the user's requests that are still under way
 (`voteOnProposal` of src/modules/proposal/proposal.service.ts, from the query for the existing vote on).
 A request first looks for the user's row and later inserts or updates it; others may get in between.
 */
module PendingVotes {
  import opened Option

  datatype Pending = Request(voteType: int) | Insert(voteType: int) | Update(voteType: int)

  /** The user's row, if there is one, and what is under way. */
  datatype Own = Own(row: Option<int>, pending: map<nat, Pending>)

  function Value(o: Own): int {
    if o.row.Some? then o.row.value else 0
  }

  /** What a request decides to do when it looks for the row; voting the same way again neutralises. */
  function Decide(row: Option<int>, voteType: int): Pending {
    if row.None? then Insert(voteType) else Update(if row.value == voteType then 0 else voteType)
  }

  /** The next database access of what is pending under `i`; the unique index refuses a second row. */
  function Turn(o: Own, i: nat): Own {
    if i !in o.pending then o
    else
      match o.pending[i]
      case Request(v) => o.(pending := o.pending[i := Decide(o.row, v)])
      case Insert(v) => Own(if o.row.None? then Some(v) else o.row, o.pending - {i})
      case Update(v) => Own(Some(v), o.pending - {i})
  }

  function Turns(o: Own, ks: seq<nat>): Own
    decreases |ks|
  {
    if |ks| == 0 then o else Turns(Turn(o, ks[0]), ks[1..])
  }

  function Less(o: Own, i: nat): Own {
    o.(pending := o.pending - {i})
  }

  /** Some order of the accesses brings the vote to `x`. */
  ghost predicate Comes(o: Own, x: int) {
    exists ks :: Value(Turns(o, ks)) == x
  }

  /** Some order brings it to `x` and from there to `y`. */
  ghost predicate ComesThen(o: Own, x: int, y: int) {
    exists ks :: Value(Turns(o, ks)) == x && Comes(Turns(o, ks), y)
  }

  lemma TurnsNone(o: Own)
    ensures Turns(o, []) == o && Comes(o, Value(o))
  {
    assert Value(Turns(o, [])) == Value(o);
  }

  lemma TurnsMore(o: Own, i: nat, ks: seq<nat>)
    ensures Turns(o, [i] + ks) == Turns(Turn(o, i), ks)
  {
    assert ([i] + ks)[1..] == ks;
  }

  /** The vote stands as it is and may change, or is changed once for all. */
  lemma ThenNow(o: Own, x: int)
    requires Comes(o, x)
    ensures ComesThen(o, Value(o), x) && ComesThen(o, x, x)
  {
    TurnsNone(o);
    assert Value(Turns(o, [])) == Value(o) && Comes(Turns(o, []), x);
    var ks :| Value(Turns(o, ks)) == x;
    TurnsNone(Turns(o, ks));
  }

  // ---------------------------------------------------------------- nothing new becomes possible

  /** What the rest of the system can do to the vote: nothing, one access of what is pending, or give up
      something that is pending. */
  ghost predicate Follows(o: Own, n: Own) {
    n == o || exists i :: n == Turn(o, i) || n == Less(o, i)
  }

  function Skip(ks: seq<nat>, i: nat): seq<nat> {
    if |ks| == 0 then [] else (if ks[0] == i then [] else [ks[0]]) + Skip(ks[1..], i)
  }

  /** What comes without `i` also comes with it, when it gets no turn. */
  lemma {:induction false} WithoutIt(o: Own, i: nat, ks: seq<nat>)
    ensures Turns(Less(o, i), ks) == Less(Turns(o, Skip(ks, i)), i)
    decreases |ks|
  {
    if |ks| == 0 {
    } else {
      var k := ks[0];
      if k == i {
        assert Turn(Less(o, i), k) == Less(o, i) && Skip(ks, i) == Skip(ks[1..], i);
        WithoutIt(o, i, ks[1..]);
      } else {
        OtherTurn(o, i, k);
        TurnsMore(o, k, Skip(ks[1..], i));
        WithoutIt(Turn(o, k), i, ks[1..]);
      }
    }
  }

  lemma OtherTurn(o: Own, i: nat, k: nat)
    requires i != k
    ensures Turn(Less(o, i), k) == Less(Turn(o, k), i)
  {
    if k in o.pending {
      match o.pending[k] {
        case Request(v) =>
          var d := Decide(o.row, v);
          assert (o.pending - {i})[k := d] == o.pending[k := d] - {i};
        case _ =>
          assert o.pending - {i} - {k} == o.pending - {k} - {i};
      }
    }
  }

  lemma FollowsComes(o: Own, n: Own, x: int)
    requires Follows(o, n) && Comes(n, x)
    ensures Comes(o, x)
  {
    var ks :| Value(Turns(n, ks)) == x;
    if n != o {
      var i :| n == Turn(o, i) || n == Less(o, i);
      if n == Turn(o, i) {
        TurnsMore(o, i, ks);
      } else {
        WithoutIt(o, i, ks);
      }
    }
  }

  lemma FollowsThen(o: Own, n: Own, x: int, y: int)
    requires Follows(o, n) && ComesThen(n, x, y)
    ensures ComesThen(o, x, y)
  {
    var ks :| Value(Turns(n, ks)) == x && Comes(Turns(n, ks), y);
    if n != o {
      var i :| n == Turn(o, i) || n == Less(o, i);
      if n == Turn(o, i) {
        TurnsMore(o, i, ks);
      } else {
        WithoutIt(o, i, ks);
        FollowsComes(Turns(o, Skip(ks, i)), Turns(n, ks), y);
      }
    }
  }

  // ---------------------------------------------------------------- what can come, read off what is pending

  /** What is pending under `i` writes `x`, unless the vote is `x` already. */
  predicate Gives(o: Own, i: nat, x: int) {
    i in o.pending && o.pending[i].voteType == x && (o.pending[i].Insert? ==> o.row.None?)
  }

  /** A request finds the very vote that it asks for, now or after something else has written it. */
  ghost predicate Neutralises(o: Own) {
    exists i :: i in o.pending && o.pending[i].Request?
             && (o.row == Some(o.pending[i].voteType) || exists j :: j != i && Gives(o, j, o.pending[i].voteType))
  }

  ghost predicate Possible(o: Own, x: int) {
    Value(o) == x || (exists i :: Gives(o, i, x)) || (x == 0 && Neutralises(o))
  }

  lemma ComesExactlyWhen(o: Own, x: int)
    ensures Comes(o, x) <==> Possible(o, x)
  {
    if Comes(o, x) {
      var ks :| Value(Turns(o, ks)) == x;
      OnlyPossible(o, ks);
    }
    if Possible(o, x) {
      PossibleComes(o, x);
    }
  }

  lemma {:induction false} OnlyPossible(o: Own, ks: seq<nat>)
    ensures Possible(o, Value(Turns(o, ks)))
    decreases |ks|
  {
    if |ks| == 0 {
    } else {
      OnlyPossible(Turn(o, ks[0]), ks[1..]);
      WasPossible(o, ks[0], Value(Turns(o, ks)));
    }
  }

  lemma WasPossible(o: Own, i: nat, x: int)
    requires Possible(Turn(o, i), x)
    ensures Possible(o, x)
  {
    var n := Turn(o, i);
    if i in o.pending && Value(n) != x {
      if j :| Gives(n, j, x) {
        if j != i { assert Gives(o, j, x); } else { assert Gives(o, i, x) || Neutralises(o); }
      } else {
        var j :| j in n.pending && n.pending[j].Request?
              && (n.row == Some(n.pending[j].voteType) || exists k :: k != j && Gives(n, k, n.pending[j].voteType));
        WasNeutralising(o, i, j);
      }
    } else if i in o.pending {
      assert Value(o) == x || Gives(o, i, x);
    }
  }

  lemma WasNeutralising(o: Own, i: nat, j: nat)
    requires var n := Turn(o, i);
             i in o.pending && j in n.pending && n.pending[j].Request?
             && (n.row == Some(n.pending[j].voteType) || exists k :: k != j && Gives(n, k, n.pending[j].voteType))
    ensures Value(o) == 0 || (exists k :: Gives(o, k, 0)) || Neutralises(o)
  {
    var n := Turn(o, i);
    var v := n.pending[j].voteType;
    assert j != i && o.pending[j] == n.pending[j];
    if n.row == Some(v) {
      assert o.row == Some(v) || Gives(o, i, v);
    } else {
      var k :| k != j && Gives(n, k, v);
      if k == i {
        assert Gives(o, i, v) || v == 0;
        if v == 0 { assert Gives(o, j, 0); }
      } else {
        assert Gives(o, k, v);
      }
    }
  }

  lemma PossibleComes(o: Own, x: int)
    requires Possible(o, x)
    ensures Comes(o, x)
  {
    if Value(o) == x {
      TurnsNone(o);
    } else if i :| Gives(o, i, x) {
      var ks := Finish(o, i);
    } else {
      var i :| i in o.pending && o.pending[i].Request?
            && (o.row == Some(o.pending[i].voteType) || exists j :: j != i && Gives(o, j, o.pending[i].voteType));
      var v := o.pending[i].voteType;
      if o.row == Some(v) {
        var ks := Finish(o, i);
      } else {
        var j :| j != i && Gives(o, j, v);
        var ks := Finish(o, j);
        var n := Turns(o, ks);
        var ls := Finish(n, i);
        TurnsJoin(o, ks, ls);
      }
    }
  }

  /** The remaining accesses of one that is pending. */
  lemma Finish(o: Own, i: nat) returns (ks: seq<nat>)
    requires i in o.pending
    ensures var n, v := Turns(o, ks), o.pending[i].voteType;
            && (forall j :: j != i && j in o.pending ==> j in n.pending && n.pending[j] == o.pending[j])
            && (Gives(o, i, v) && o.row != Some(v) ==> n.row == Some(v))
            && (o.pending[i].Request? && o.row == Some(v) ==> n.row == Some(0))
  {
    TurnsNone(Turn(o, i));
    TurnsMore(o, i, []);
    ks := [i] + [];
    if o.pending[i].Request? {
      var n := Turn(o, i);
      TurnsNone(Turn(n, i));
      TurnsMore(n, i, []);
      TurnsMore(o, i, [i] + []);
      ks := [i] + ([i] + []);
    }
  }

  lemma {:induction false} TurnsJoin(o: Own, ks: seq<nat>, ls: seq<nat>)
    ensures Turns(o, ks + ls) == Turns(Turns(o, ks), ls)
    decreases |ks|
  {
    if |ks| == 0 {
      assert ks + ls == ls;
    } else {
      TurnsJoin(Turn(o, ks[0]), ks[1..], ls);
      assert (ks + ls)[1..] == ks[1..] + ls;
    }
  }

  /** Votes stay -1, 0 or 1. */
  predicate Typed(o: Own) {
    -1 <= Value(o) <= 1 && forall i :: i in o.pending ==> -1 <= o.pending[i].voteType <= 1
  }

  lemma TypedComes(o: Own, x: int)
    requires Typed(o) && Comes(o, x)
    ensures -1 <= x <= 1
  {
    ComesExactlyWhen(o, x);
  }
}

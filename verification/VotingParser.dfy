/**
 The voting parser of src/workers/voting-parser.worker.ts: all votes of a window first, then all
 forced votings, in one transaction with the cursor.
 */
module VotingParser {
  import opened Option
  import opened BlockCursor
  import M = Markets
  import R = Resolution

  datatype VoteEvent = VoteEvent(voter: string, questionId: nat, outcomeIndex: nat, txHash: string)
  datatype ForceEvent = ForceEvent(admin: string, questionId: nat, txHash: string)

  datatype VoteRow = VoteRow(predictionSet: nat, outcome: Option<nat>, user: Option<nat>, event: VoteEvent)

  /** What one run looks up: the market of a question, the oracle's winner index of a decided question,
      outcomes by market and index, users by wallet. */
  datatype Lookups = Lookups(market: nat -> Option<nat>, decided: nat -> Option<nat>,
                             outcome: (nat, nat) -> Option<nat>, user: string -> Option<nat>)

  type Markets = map<nat, R.Row>

  predicate Concerns(questionId: nat, market: nat, env: Lookups) {
    env.market(questionId) == Some(market)
  }

  /** The outcome that the oracle's decision of a question names, if it has decided and it exists. */
  function Decision(questionId: nat, market: nat, env: Lookups): Option<nat> {
    if Concerns(questionId, market, env) && env.decided(questionId).Some?
    then env.outcome(market, env.decided(questionId).value) else None
  }

  /** The last decision that a vote of the window brings for a market. */
  function LastDecision(es: seq<VoteEvent>, market: nat, env: Lookups): Option<nat> {
    if |es| == 0 then None
    else if Decision(es[|es| - 1].questionId, market, env).Some? then Decision(es[|es| - 1].questionId, market, env)
    else LastDecision(es[..|es| - 1], market, env)
  }

  predicate Forced(es: seq<ForceEvent>, market: nat, env: Lookups) {
    exists i :: 0 <= i < |es| && Concerns(es[i].questionId, market, env)
  }

  function Voted(row: R.Row, market: nat, votes: seq<VoteEvent>, env: Lookups): R.Row {
    var decision := LastDecision(votes, market, env);
    if decision.Some? then R.Row(M.Finalized, decision) else row
  }

  /** A market's row after a window. */
  function RowAfter(row: R.Row, market: nat, votes: seq<VoteEvent>, forces: seq<ForceEvent>, env: Lookups): R.Row {
    if Forced(forces, market, env) then Voted(row, market, votes, env).(setStatus := M.Voting)
    else Voted(row, market, votes, env)
  }

  function After(markets: Markets, votes: seq<VoteEvent>, forces: seq<ForceEvent>, env: Lookups): Markets {
    map m | m in markets :: RowAfter(markets[m], m, votes, forces, env)
  }

  /** A vote is recorded unless its market is unknown or the decision it would record names no outcome. */
  predicate Recorded(e: VoteEvent, known: set<nat>, env: Lookups) {
    && env.market(e.questionId).Some? && env.market(e.questionId).value in known
    && (env.decided(e.questionId).Some? ==> Decision(e.questionId, env.market(e.questionId).value, env).Some?)
  }

  function RowsOf(es: seq<VoteEvent>, known: set<nat>, env: Lookups): seq<VoteRow> {
    if |es| == 0 then []
    else if Recorded(es[|es| - 1], known, env)
    then var e := es[|es| - 1];
         RowsOf(es[..|es| - 1], known, env)
         + [VoteRow(env.market(e.questionId).value, env.outcome(env.market(e.questionId).value, e.outcomeIndex),
           env.user(e.voter), e)]
    else RowsOf(es[..|es| - 1], known, env)
  }

  class VotingDb {
    var cursor: int
    var markets: Markets
    var votes: seq<VoteRow>
    const parseBlockSize: nat

    constructor (start: int, size: nat, rows: Markets)
      ensures cursor == start && markets == rows && votes == [] && parseBlockSize == size
    {
      cursor, markets, votes, parseBlockSize := start, rows, [], size;
    }

    /** One run of the worker; `fault` is an exception before the commit. */
    method ParseVotes(voted: int -> seq<VoteEvent>, forced: int -> seq<ForceEvent>, env: Lookups, head: int,
            fault: bool)
      returns (committed: bool)
      modifies this`cursor, this`markets, this`votes
      ensures committed <==> WorkerAdvances(old(cursor), parseBlockSize, head) && !fault
      ensures committed ==>
                var to := ToBlock(old(cursor), parseBlockSize, head);
                var es, fs := Query(voted, old(cursor) + 1, to), Query(forced, old(cursor) + 1, to);
                && cursor == to
                && markets == After(old(markets), es, fs, env)
                && votes == old(votes) + RowsOf(es, old(markets).Keys, env)
      ensures !committed ==> cursor == old(cursor) && markets == old(markets) && votes == old(votes)
    {
      var fromBlock := cursor + 1;
      var toBlock := fromBlock + parseBlockSize;
      if toBlock > head { toBlock := head; }
      if fromBlock >= toBlock { return false; }

      var votingEvents := Query(voted, fromBlock, toBlock);
      var afterVotes, rows := RecordVotes(markets, votingEvents, env);
      var votingForceEvents := Query(forced, fromBlock, toBlock);
      var afterForces := ForceVotings(afterVotes, votingForceEvents, env);
      if fault { return false; }
      assert afterForces == After(markets, votingEvents, votingForceEvents, env);
      cursor, markets, votes := toBlock, afterForces, votes + rows;
      committed := true;
    }

    static method RecordVotes(before: Markets, events: seq<VoteEvent>, env: Lookups)
            returns (after: Markets, rows: seq<VoteRow>)
      ensures after == map m | m in before :: Voted(before[m], m, events, env)
      ensures rows == RowsOf(events, before.Keys, env)
    {
      after, rows := before, [];
      for i := 0 to |events|
        invariant after == map m | m in before :: Voted(before[m], m, events[..i], env)
        invariant rows == RowsOf(events[..i], before.Keys, env)
      {
        var event := events[i];
        OneMoreVote(before, events, i, env);
        var market := env.market(event.questionId);
        if market.None? || market.value !in after { continue; }
        var decided := env.decided(event.questionId);
        if decided.Some? {
          var outcome := env.outcome(market.value, decided.value);
          if outcome.None? { continue; }
          after := after[market.value := after[market.value].(winner := outcome, setStatus := M.Finalized)];
        }
        rows := rows + [VoteRow(market.value, env.outcome(market.value, event.outcomeIndex), env.user(event.voter),
          event)];
      }
      assert events[..|events|] == events;
    }

    static method ForceVotings(before: Markets, events: seq<ForceEvent>, env: Lookups) returns (after: Markets)
      ensures after == map m | m in before ::
              if Forced(events, m, env) then before[m].(setStatus := M.Voting) else before[m]
    {
      after := before;
      for i := 0 to |events|
        invariant after == map m | m in before ::
                  if Forced(events[..i], m, env) then before[m].(setStatus := M.Voting) else before[m]
      {
        OneMoreForce(events, i, env);
        var market := env.market(events[i].questionId);
        if market.None? || market.value !in after { continue; }
        after := after[market.value := after[market.value].(setStatus := M.Voting)];
      }
      assert events[..|events|] == events;
    }
  }

  lemma OneMoreVote(markets: Markets, es: seq<VoteEvent>, i: nat, env: Lookups)
    requires i < |es|
    ensures forall m :: m in markets ==>
              Voted(markets[m], m, es[..i + 1], env)
              == if Decision(es[i].questionId, m, env).Some?
                 then R.Row(M.Finalized, Decision(es[i].questionId, m, env)) else Voted(markets[m], m, es[..i], env)
    ensures RowsOf(es[..i + 1], markets.Keys, env)
            == if Recorded(es[i], markets.Keys, env)
               then RowsOf(es[..i], markets.Keys, env)
                    + [VoteRow(env.market(es[i].questionId).value,
                               env.outcome(env.market(es[i].questionId).value, es[i].outcomeIndex),
                                 env.user(es[i].voter), es[i])]
               else RowsOf(es[..i], markets.Keys, env)
  {
    assert es[..i + 1][..i] == es[..i];
  }

  /** The vote rows of a window: each is of one of its votes, for the market of the question, the outcome
      voted for and the user of the voter; and every vote of a known market has one unless the oracle has
      decided for an outcome that does not exist. */
  lemma {:induction false} RowsAre(es: seq<VoteEvent>, known: set<nat>, env: Lookups)
    ensures var rows := RowsOf(es, known, env);
            && (forall r :: r in rows ==>
                  && r.event in es && env.market(r.event.questionId) == Some(r.predictionSet)
                  && r.predictionSet in known
                  && r.outcome == env.outcome(r.predictionSet, r.event.outcomeIndex)
                  && r.user == env.user(r.event.voter))
            && (forall e :: e in es && env.market(e.questionId).Some? && env.market(e.questionId).value in known
                           && (env.decided(e.questionId).Some? ==>
                                 env.outcome(env.market(e.questionId).value, env.decided(e.questionId).value).Some?)
                  ==> exists r :: r in rows && r.event == e)
  {
    if |es| == 0 {
    } else {
      var init, last := es[..|es| - 1], es[|es| - 1];
      RowsAre(init, known, env);
      assert es == init + [last];
      var before, rows := RowsOf(init, known, env), RowsOf(es, known, env);
      if Recorded(last, known, env) {
        assert rows[|before|].event == last && rows[|before|] in rows;
        assert forall r :: r in before ==> r in rows;
      }
    }
  }

  lemma OneMoreForce(es: seq<ForceEvent>, i: nat, env: Lookups)
    requires i < |es|
    ensures forall m :: Forced(es[..i + 1], m, env) <==> Forced(es[..i], m, env) || Concerns(es[i].questionId, m, env)
  {
    forall m ensures Forced(es[..i + 1], m, env) <==> Forced(es[..i], m, env) || Concerns(es[i].questionId, m, env) {
      if Concerns(es[i].questionId, m, env) { assert Concerns(es[..i + 1][i].questionId, m, env); }
      if Forced(es[..i], m, env) {
        var k :| 0 <= k < i && Concerns(es[..i][k].questionId, m, env);
        assert Concerns(es[..i + 1][k].questionId, m, env);
      }
    }
  }

  // ---------------------------------------------------------------- what a window does to one market

  /** A market ends a window finalised exactly when nothing forces a voting in it, whatever the order of
      the two on the chain, and either a vote of the window decides it or it was finalised before. */
  lemma FinalizedExactlyWhen(row: R.Row, market: nat, votes: seq<VoteEvent>, forces: seq<ForceEvent>, env: Lookups)
    ensures RowAfter(row, market, votes, forces, env).setStatus == M.Finalized
            <==> !Forced(forces, market, env)
                 && (row.setStatus == M.Finalized
                     || exists i :: 0 <= i < |votes| && Decision(votes[i].questionId, market, env).Some?)
  {
    DecidedExactlyWhen(votes, market, env);
  }

  lemma {:induction false} DecidedExactlyWhen(es: seq<VoteEvent>, market: nat, env: Lookups)
    ensures LastDecision(es, market, env).Some?
            <==> exists i :: 0 <= i < |es| && Decision(es[i].questionId, market, env).Some?
  {
    if |es| == 0 {
    } else {
      var init := es[..|es| - 1];
      DecidedExactlyWhen(init, market, env);
      if LastDecision(init, market, env).Some? {
        var i :| 0 <= i < |init| && Decision(init[i].questionId, market, env).Some?;
        assert Decision(es[i].questionId, market, env).Some?;
      }
      if exists i :: 0 <= i < |es| && Decision(es[i].questionId, market, env).Some? {
        var i :| 0 <= i < |es| && Decision(es[i].questionId, market, env).Some?;
        if i < |es| - 1 { assert Decision(init[i].questionId, market, env).Some?; }
      }
    }
  }

  /** The vote is on the market's question, which the oracle has decided for an outcome that exists. */
  ghost predicate Decides(e: VoteEvent, market: nat, env: Lookups) {
    env.market(e.questionId) == Some(market) && env.decided(e.questionId).Some?
    && env.outcome(market, env.decided(e.questionId).value).Some?
  }

  /** The row a window leaves, by what its events say: with the last deciding vote's outcome as the winner
      and finalised, and in voting whenever one of its forced votings is for the market. */
  lemma WindowLeaves(row: R.Row, market: nat, votes: seq<VoteEvent>, forces: seq<ForceEvent>, env: Lookups)
    ensures var after := RowAfter(row, market, votes, forces, env);
            var forced := exists i :: 0 <= i < |forces| && env.market(forces[i].questionId) == Some(market);
            && (forall i :: 0 <= i < |votes| && Decides(votes[i], market, env)
                            && (forall k :: i < k < |votes| ==> !Decides(votes[k], market, env)) ==>
                  after == R.Row(if forced then M.Voting else M.Finalized,
                                 env.outcome(market, env.decided(votes[i].questionId).value)))
            && ((forall i :: 0 <= i < |votes| ==> !Decides(votes[i], market, env)) ==>
                  after == R.Row(if forced then M.Voting else row.setStatus, row.winner))
  {
    forall i | 0 <= i < |votes| && Decides(votes[i], market, env)
               && (forall k :: i < k < |votes| ==> !Decides(votes[k], market, env))
      ensures LastDecision(votes, market, env) == env.outcome(market, env.decided(votes[i].questionId).value)
    {
      LastDecides(votes, i, market, env);
    }
    if forall i :: 0 <= i < |votes| ==> !Decides(votes[i], market, env) { NoneDecides(votes, market, env); }
    assert Forced(forces, market, env)
           <==> exists i :: 0 <= i < |forces| && env.market(forces[i].questionId) == Some(market);
  }

  lemma {:induction false} LastDecides(es: seq<VoteEvent>, i: nat, market: nat, env: Lookups)
    requires i < |es| && Decides(es[i], market, env)
    requires forall k :: i < k < |es| ==> !Decides(es[k], market, env)
    ensures LastDecision(es, market, env) == env.outcome(market, env.decided(es[i].questionId).value)
  {
    if i == |es| - 1 {
    } else {
      assert !Decides(es[|es| - 1], market, env);
      LastDecides(es[..|es| - 1], i, market, env);
    }
  }

  lemma {:induction false} NoneDecides(es: seq<VoteEvent>, market: nat, env: Lookups)
    requires forall k :: 0 <= k < |es| ==> !Decides(es[k], market, env)
    ensures LastDecision(es, market, env) == None
  {
    if |es| == 0 {
    } else {
      assert !Decides(es[|es| - 1], market, env);
      NoneDecides(es[..|es| - 1], market, env);
    }
  }

  /** The bad run: the vote that decides the market and an earlier forced voting fall into one window. */
  lemma DecisionReopened(row: R.Row, market: nat, vote: VoteEvent, force: ForceEvent, env: Lookups)
    requires Decision(vote.questionId, market, env).Some? && Concerns(force.questionId, market, env)
    ensures RowAfter(row, market, [vote], [force], env) == R.Row(M.Voting, Decision(vote.questionId, market, env))
  {
    assert Concerns([force][0].questionId, market, env);
  }

  // ---------------------------------------------------------------- the window as steps of the writers

  /** The reads and writes of one market's row in a window. */
  function VoteSteps(es: seq<VoteEvent>, market: nat, env: Lookups): seq<R.Step> {
    if |es| == 0 then []
    else match Decision(es[|es| - 1].questionId, market, env)
         case None => VoteSteps(es[..|es| - 1], market, env)
         case Some(o) =>
           VoteSteps(es[..|es| - 1], market, env) + [R.Read(0, R.VoteFinalise), R.FindOutcome(0, o), R.Write(0)]
  }

  function ForceSteps(es: seq<ForceEvent>, market: nat, env: Lookups): seq<R.Step> {
    if |es| == 0 then []
    else if Concerns(es[|es| - 1].questionId, market, env)
    then ForceSteps(es[..|es| - 1], market, env) + [R.Read(0, R.ForceVoting), R.Write(0)]
    else ForceSteps(es[..|es| - 1], market, env)
  }

  /** The look-ups of a run agree with the chain and with the outcome table of the market. */
  ghost predicate Faithful(env: Lookups, market: nat, s: R.State, winnerIndex: nat) {
    forall q :: Concerns(q, market, env) && env.decided(q).Some? ==>
                  && env.decided(q).value == winnerIndex
                  && var o := env.outcome(market, winnerIndex);
                     o.Some? ==> o.value in s.live && o.value in s.indexOf && s.indexOf[o.value] == winnerIndex
  }

  lemma {:induction false} AfterJoin(s: R.State, winnerIndex: nat, a: seq<R.Step>, b: seq<R.Step>)
    ensures R.After(s, winnerIndex, a + b) == R.After(R.After(s, winnerIndex, a), winnerIndex, b)
  {
    if |b| == 0 {
      assert a + b == a;
    } else {
      AfterJoin(s, winnerIndex, a, b[..|b| - 1]);
      assert (a + b)[..|a + b| - 1] == a + b[..|b| - 1] && (a + b)[|a + b| - 1] == b[|b| - 1];
    }
  }

  lemma {:induction false} VotesAreSteps(s: R.State, market: nat, es: seq<VoteEvent>, env: Lookups, winnerIndex: nat)
    requires 0 !in s.held && Faithful(env, market, s, winnerIndex)
    ensures R.After(s, winnerIndex, VoteSteps(es, market, env)) == s.(row := Voted(s.row, market, es, env))
  {
    if |es| == 0 {
    } else {
      var init, q := es[..|es| - 1], es[|es| - 1].questionId;
      VotesAreSteps(s, market, init, env, winnerIndex);
      var decision := Decision(q, market, env);
      if decision.Some? {
        var t := s.(row := Voted(s.row, market, init, env));
        AfterJoin(s, winnerIndex, VoteSteps(init, market, env),
          [R.Read(0, R.VoteFinalise), R.FindOutcome(0, decision.value), R.Write(0)]);
        DecisionIsSteps(t, winnerIndex, decision.value);
      }
    }
  }

  lemma DecisionIsSteps(s: R.State, winnerIndex: nat, outcome: nat)
    requires 0 !in s.held && outcome in s.live && outcome in s.indexOf && s.indexOf[outcome] == winnerIndex
    ensures R.After(s, winnerIndex, [R.Read(0, R.VoteFinalise), R.FindOutcome(0, outcome), R.Write(0)])
            == s.(row := R.Row(M.Finalized, Some(outcome)))
  {
    AfterJoin(s, winnerIndex, [R.Read(0, R.VoteFinalise), R.FindOutcome(0, outcome)], [R.Write(0)]);
    assert [R.Read(0, R.VoteFinalise), R.FindOutcome(0, outcome)] + [R.Write(0)]
        == [R.Read(0, R.VoteFinalise), R.FindOutcome(0, outcome), R.Write(0)];
    R.TwoSteps(s, winnerIndex, R.Read(0, R.VoteFinalise), R.FindOutcome(0, outcome));
    R.OneStep(R.After(s, winnerIndex, [R.Read(0, R.VoteFinalise), R.FindOutcome(0, outcome)]), winnerIndex, R.Write(0));
    assert s.held[0 := R.Held(R.VoteFinalise, s.row, Some(outcome))] - {0} == s.held;
  }

  lemma {:induction false} ForcesAreSteps(s: R.State, market: nat, es: seq<ForceEvent>, env: Lookups, winnerIndex: nat)
    requires 0 !in s.held && R.Refers(s.row.winner, s.live)
    ensures R.After(s, winnerIndex, ForceSteps(es, market, env))
            == if Forced(es, market, env) then s.(row := s.row.(setStatus := M.Voting)) else s
  {
    if |es| == 0 {
    } else {
      hide R.After, Forced;
      var init := es[..|es| - 1];
      ForcesAreSteps(s, market, init, env, winnerIndex);
      OneMoreForce(es, |es| - 1, env);
      assert es[..|es| - 1 + 1] == es;
      if Concerns(es[|es| - 1].questionId, market, env) {
        var t := R.After(s, winnerIndex, ForceSteps(init, market, env));
        AfterJoin(s, winnerIndex, ForceSteps(init, market, env), [R.Read(0, R.ForceVoting), R.Write(0)]);
        ForceIsSteps(t, winnerIndex);
      }
    }
  }

  lemma ForceIsSteps(s: R.State, winnerIndex: nat)
    requires 0 !in s.held && R.Refers(s.row.winner, s.live)
    ensures R.After(s, winnerIndex, [R.Read(0, R.ForceVoting), R.Write(0)]) == s.(row := s.row.(setStatus := M.Voting))
  {
    R.TwoSteps(s, winnerIndex, R.Read(0, R.ForceVoting), R.Write(0));
    assert s.held[0 := R.Held(R.ForceVoting, s.row, None)] - {0} == s.held;
  }

  lemma {:induction false} NoEdits(votes: seq<VoteEvent>, forces: seq<ForceEvent>, market: nat, env: Lookups)
    ensures R.NoneSuppliesFinalized(VoteSteps(votes, market, env))
            && R.NoneSuppliesFinalized(ForceSteps(forces, market, env))
    decreases |votes| + |forces|
  {
    if |votes| == 0 {
    } else {
      NoEdits(votes[..|votes| - 1], forces, market, env);
    }
    if |forces| > 0 { NoEdits(votes, forces[..|forces| - 1], market, env); }
  }

  /** A committed window does to a market what a run of the writers' steps does, whatever copies the other
      writers hold meanwhile; what holds of every run of the writers therefore holds of the parser. */
  lemma WindowIsSteps(s: R.State, market: nat, votes: seq<VoteEvent>, forces: seq<ForceEvent>, env: Lookups,
          winnerIndex: nat)
    requires R.Inv(s, winnerIndex) && 0 !in s.held && Faithful(env, market, s, winnerIndex)
    ensures var t := R.After(s, winnerIndex, VoteSteps(votes, market, env) + ForceSteps(forces, market, env));
            t == s.(row := RowAfter(s.row, market, votes, forces, env)) && R.Inv(t, winnerIndex)
  {
    NoEdits(votes, forces, market, env);
    hide VoteSteps, ForceSteps, R.After, LastDecision, Forced, Faithful;
    VotesAreSteps(s, market, votes, env, winnerIndex);
    var t := s.(row := Voted(s.row, market, votes, env));
    R.WinnerIsTheChains(s, winnerIndex, VoteSteps(votes, market, env));
    ForcesAreSteps(t, market, forces, env, winnerIndex);
    R.WinnerIsTheChains(t, winnerIndex, ForceSteps(forces, market, env));
    AfterJoin(s, winnerIndex, VoteSteps(votes, market, env), ForceSteps(forces, market, env));
  }
}

/**
 The winner of a finished round. Votes, proposals and edits that were checked before the round was finished
 can still be written, and a finaliser that selected the round earlier can still query it. From what is
 held the exact condition follows under which the winner can never be passed.
 */
module ProposalWinner {
  import opened Option
  import opened PendingVotes
  import opened ProposalBounds
  import opened ProposalRounds
  import opened Proposals
  import opened Sums

  // ---------------------------------------------------------------- the condition

  /** A proposal of the round that is not deleted, or that the write of a held edit brings back. */
  ghost predicate Contender(s: State, p: nat, round: nat) {
    Belongs(s.db, p, round) && (!s.db.proposals[p].deleted || exists i :: i in s.held && s.held[i] == HeldEdit(p))
  }

  ghost predicate ProposalHeld(s: State, round: nat) {
    exists i :: i in s.held && s.held[i].HeldProposal? && s.held[i].round == round
  }

  /** Whatever is still written, no proposal passes the winner: none can get higher than the winner can
      fall, and one that is yet to be inserted starts at 0. */
  ghost predicate Ahead(s: State, round: nat, winner: Option<nat>) {
    match winner
    case None => (forall p :: p in s.db.proposals ==> !Contender(s, p, round)) && !ProposalHeld(s, round)
    case Some(w) =>
      && Belongs(s.db, w, round)
      && (forall p :: p in s.db.proposals && Contender(s, p, round) && p != w ==> Highest(s, p) <= Lowest(s, w))
      && (ProposalHeld(s, round) ==> 0 <= Lowest(s, w))
  }

  /** From `a` and `c`, with `r` not above `q`, the votes go on to `b` and `d`, with `r` above `q`. */
  ghost predicate Crosses(s: State, q: nat, r: nat, a: map<nat, int>, b: map<nat, int>, c: map<nat, int>,
          d: map<nat, int>)
  {
    CanMove(s, q, a, b) && CanMove(s, r, c, d) && SumOf(c) <= SumOf(a) && SumOf(b) < SumOf(d)
  }

  /** The votes under way can bring `r` to at most as many votes as `q` has, and later above `q`. */
  ghost predicate CanCross(s: State, q: nat, r: nat) {
    exists a, b, c, d :: Crosses(s, q, r, a, b, c, d)
  }

  /** Whatever a query for the best proposal may still answer is right for good: nothing can come back
      or come in, and no two surviving proposals can change places. */
  ghost predicate Settled(s: State, round: nat) {
    && !ProposalHeld(s, round)
    && (forall i :: i in s.held && s.held[i].HeldEdit? ==> !Belongs(s.db, s.held[i].proposal, round))
    && (forall p :: p in s.db.proposals && InRound(s.db, p, round) ==> HasVotes(s.db, p))
    && (forall q, r ::
          q in s.db.proposals && InRound(s.db, q, round) && r in s.db.proposals && InRound(s.db, r, round) && q != r
          ==> !CanCross(s, q, r))
  }

  ghost predicate DueHeld(s: State, round: nat) {
    exists i :: i in s.held && s.held[i] == HeldDue(round)
  }

  /** The same for every winner that the round can still be given: the recorded one, those that other
      finishes have read and not yet written, and those that a finaliser can still read that selected the
      round before it was finished. */
  ghost predicate AheadForGood(s: State, round: nat) {
    && round in s.db.rounds
    && Ahead(s, round, s.db.rounds[round].winner)
    && (forall i :: i in s.held && s.held[i].HeldFinish? && s.held[i].round == round ==> Ahead(s, round, s.held[i].top))
    && (DueHeld(s, round) ==> Settled(s, round))
  }

  // ---------------------------------------------------------------- no step takes the lead away

  /** A proposal that is not there yet has no votes and none under way. */
  lemma NewProposalIsEmpty(s: State, p: nat)
    requires Inv(s) && p !in s.db.proposals
    ensures Voters(s, p) == {} && Highest(s, p) == 0 && Lowest(s, p) == 0
  {
    hide Comes;
    assert Voters(s, p) == {} by {
      forall u ensures u !in Voters(s, p) {}
    }
    assert Bests(s, p) == map[] && Worsts(s, p) == map[];
  }

  lemma InsertedIsEmpty(s: State, step: Step, p: nat)
    requires Inv(s) && p !in s.db.proposals && p in Next(s, step).db.proposals
    ensures Highest(Next(s, step), p) == 0
  {
    hide Comes, Best, Worst;
    var t := Next(s, step);
    NewProposalIsEmpty(s, p);
    assert t.db.votes == s.db.votes && t.held == s.held - {step.i};
    assert Voters(t, p) == {} by {
      forall u ensures u !in Voters(t, p) {}
    }
    assert Bests(t, p) == map[];
  }

  lemma StillBelongs(s: State, step: Step, w: nat, round: nat)
    requires w in s.db.proposals
    ensures w in Next(s, step).db.proposals && (Belongs(Next(s, step).db, w, round) <==> Belongs(s.db, w, round))
  {}

  /** A contender was one before, or its insert was held. */
  lemma WasContender(s: State, step: Step, p: nat, round: nat)
    requires Inv(s) && Contender(Next(s, step), p, round)
    ensures if p in s.db.proposals then Contender(s, p, round)
            else step.WriteHeld? && step.i in s.held && s.held[step.i] == HeldProposal(round, s.held[step.i].author)
  {
    var t := Next(s, step);
    if p in s.db.proposals && t.db.proposals[p].deleted {
      var i :| i in t.held && t.held[i] == HeldEdit(p);
      assert i in s.held && s.held[i] == t.held[i];
    }
  }

  lemma ProposalHeldBefore(s: State, step: Step, round: nat)
    requires !IsActive(s.db, round) && ProposalHeld(Next(s, step), round)
    ensures ProposalHeld(s, round)
  {
    var i :| i in Next(s, step).held && Next(s, step).held[i].HeldProposal? && Next(s, step).held[i].round == round;
    assert i in s.held && s.held[i] == Next(s, step).held[i];
  }

  lemma AheadStays(s: State, step: Step, round: nat, winner: Option<nat>)
    requires Inv(s) && round in s.db.rounds && !IsActive(s.db, round) && Ahead(s, round, winner)
    ensures Ahead(Next(s, step), round, winner)
  {
    hide Highest, Lowest, Inv, Contender, ProposalHeld, Next;
    var t := Next(s, step);
    NextKeeps(s, step);
    if ProposalHeld(t, round) { ProposalHeldBefore(s, step, round); }
    if winner.Some? {
      var w := winner.value;
      StepNarrows(s, step, w);
      NarrowsBounds(s, t, w);
      StillBelongs(s, step, w, round);
      forall p | p in t.db.proposals && Contender(t, p, round) && p != w ensures Highest(t, p) <= Lowest(t, w) {
        RivalStays(s, step, round, w, p);
      }
    } else {
      forall p | p in t.db.proposals ensures !Contender(t, p, round) {
        if Contender(t, p, round) { NoneComesIn(s, step, p, round); }
      }
    }
  }

  lemma NoneComesIn(s: State, step: Step, p: nat, round: nat)
    requires Inv(s) && Contender(Next(s, step), p, round) && !ProposalHeld(s, round)
    ensures p in s.db.proposals && Contender(s, p, round)
  {
    WasContender(s, step, p, round);
  }

  lemma RivalStays(s: State, step: Step, round: nat, w: nat, p: nat)
    requires Inv(s) && round in s.db.rounds && !IsActive(s.db, round) && Ahead(s, round, Some(w))
    requires Contender(Next(s, step), p, round) && p != w
    ensures Highest(Next(s, step), p) <= Lowest(s, w)
  {
    hide Highest, Lowest, Inv;
    WasContender(s, step, p, round);
    if p in s.db.proposals {
      NextKeeps(s, step);
      StepNarrows(s, step, p);
      NarrowsBounds(s, Next(s, step), p);
    } else {
      InsertedIsEmpty(s, step, p);
    }
  }

  // ---------------------------------------------------------------- what is settled stays settled

  lemma CrossedBefore(s: State, step: Step, q: nat, r: nat)
    requires Inv(s) && q in s.db.proposals && r in s.db.proposals
    requires !IsActive(s.db, s.db.proposals[q].round) && !IsActive(s.db, s.db.proposals[r].round)
    requires CanCross(Next(s, step), q, r)
    ensures CanCross(s, q, r)
  {
    hide CanMove, Inv, Next, SumOf;
    var t := Next(s, step);
    var a, b, c, d :| Crosses(t, q, r, a, b, c, d);
    MovedBefore(s, step, q, a, b);
    MovedBefore(s, step, r, c, d);
    assert Crosses(s, q, r, a, b, c, d);
  }

  lemma MovedBefore(s: State, step: Step, p: nat, a: map<nat, int>, b: map<nat, int>)
    requires Inv(s) && p in s.db.proposals && !IsActive(s.db, s.db.proposals[p].round)
    requires CanMove(Next(s, step), p, a, b)
    ensures CanMove(s, p, a, b)
  {
    hide ComesThen, Follows, OwnOf, Inv, Next;
    forall u ensures ComesThen(OwnOf(s, u, p), At(a, u), At(b, u)) {
      StepFollows(s, step, u, p);
      FollowsThen(OwnOf(s, u, p), OwnOf(Next(s, step), u, p), At(a, u), At(b, u));
    }
  }

  lemma VotesStay(s: State, step: Step, p: nat)
    requires Inv(s) && HasVotes(s.db, p)
    ensures HasVotes(Next(s, step).db, p)
  {
    hide FindVote, Tally;
    var k :| 0 <= k < |s.db.votes| && s.db.votes[k].proposal == p;
    assert k < |Next(s, step).db.votes| && Next(s, step).db.votes[k].proposal == p;
  }

  lemma EditHeldBefore(s: State, step: Step, i: nat)
    requires Inv(s) && i in Next(s, step).held && Next(s, step).held[i].HeldEdit?
    ensures var p := Next(s, step).held[i].proposal;
            (i in s.held && s.held[i] == Next(s, step).held[i])
            || (p in s.db.proposals && !s.db.proposals[p].deleted && !HasVotes(s.db, p))
  {}

  lemma SettledStays(s: State, step: Step, round: nat)
    requires Inv(s) && round in s.db.rounds && !IsActive(s.db, round) && Settled(s, round)
    ensures Settled(Next(s, step), round)
  {
    hide CanCross, Inv, Next, ProposalHeld, HasVotes;
    var t := Next(s, step);
    NextKeeps(s, step);
    if ProposalHeld(t, round) { ProposalHeldBefore(s, step, round); }
    forall i | i in t.held && t.held[i].HeldEdit? ensures !Belongs(t.db, t.held[i].proposal, round) {
      EditHeldBefore(s, step, i);
      EditOfKnown(s, step, i);
      StillBelongs(s, step, t.held[i].proposal, round);
    }
    forall p | p in t.db.proposals && InRound(t.db, p, round)
      ensures p in s.db.proposals && InRound(s.db, p, round) && HasVotes(t.db, p)
    {
      SurvivedBefore(s, step, p, round);
      VotesStay(s, step, p);
    }
    forall q, r | q in t.db.proposals && InRound(t.db, q, round) && r in t.db.proposals
                  && InRound(t.db, r, round) && q != r
      ensures !CanCross(t, q, r)
    {
      if CanCross(t, q, r) { CrossedBefore(s, step, q, r); }
    }
  }

  lemma EditOfKnown(s: State, step: Step, i: nat)
    requires Inv(s) && i in Next(s, step).held && Next(s, step).held[i].HeldEdit?
    ensures Next(s, step).held[i].proposal in s.db.proposals
  {
    EditHeldBefore(s, step, i);
    if i in s.held && s.held[i] == Next(s, step).held[i] { assert Wellformed(s.db, s.held[i]); }
  }

  lemma SurvivedBefore(s: State, step: Step, p: nat, round: nat)
    requires Inv(s) && Settled(s, round) && InRound(Next(s, step).db, p, round)
    ensures p in s.db.proposals && InRound(s.db, p, round)
  {
    hide CanCross;
    assert Contender(Next(s, step), p, round);
    NoneComesIn(s, step, p, round);
    forall i ensures !(i in s.held && s.held[i] == HeldEdit(p)) {}
  }

  /** In a settled round every answer of the query is ahead. */
  lemma SettledAnswers(s: State, round: nat, top: Option<nat>)
    requires Inv(s) && Settled(s, round) && IsTop(s.db, round, top)
    ensures Ahead(s, round, top)
  {
    hide CanCross, Highest, Lowest, Inv, Tally, HasVotes;
    forall p | p in s.db.proposals && Contender(s, p, round) ensures InRound(s.db, p, round) {}
    if top.Some? {
      forall r | r in s.db.proposals && Contender(s, r, round) && r != top.value
        ensures Highest(s, r) <= Lowest(s, top.value)
      {
        if Lowest(s, top.value) < Highest(s, r) { CrossesFromHere(s, top.value, r); }
      }
    }
  }

  lemma CrossesFromHere(s: State, q: nat, r: nat)
    requires Inv(s) && Tally(s.db.votes, r) <= Tally(s.db.votes, q) && Lowest(s, q) < Highest(s, r)
    ensures CanCross(s, q, r)
  {
    hide CanMove, Tally, Bests, Worsts, Standings;
    TallyIsSum(s.db.votes, q);
    TallyIsSum(s.db.votes, r);
    FromStandings(s, q);
    FromStandings(s, r);
    var votes := s.db.votes;
    assert Crosses(s, q, r, Standings(votes, q), Worsts(s, q), Standings(votes, r), Bests(s, r));
  }

  lemma FromStandings(s: State, p: nat)
    requires Inv(s)
    ensures CanMove(s, p, Standings(s.db.votes, p), Bests(s, p))
    ensures CanMove(s, p, Standings(s.db.votes, p), Worsts(s, p))
  {
    hide OwnOf, Inv, Best, Worst, Standing, Comes, ComesThen, Bests, Worsts, Standings;
    forall u
      ensures ComesThen(OwnOf(s, u, p), At(Standings(s.db.votes, p), u), At(Bests(s, p), u))
      ensures ComesThen(OwnOf(s, u, p), At(Standings(s.db.votes, p), u), At(Worsts(s, p), u))
    {
      BestAt(s, u, p);
      BestIsReached(s, u, p);
      StandingAt(s.db.votes, u, p);
      OwnIsTyped(s, u, p);
      ThenNow(OwnOf(s, u, p), Best(s, u, p));
      ThenNow(OwnOf(s, u, p), Worst(s, u, p));
    }
  }

  // ---------------------------------------------------------------- ahead for good is kept

  lemma AheadForGoodStays(s: State, step: Step, round: nat)
    requires Inv(s) && AheadForGood(s, round) && !IsActive(s.db, round)
    ensures AheadForGood(Next(s, step), round) && !IsActive(Next(s, step).db, round)
  {
    hide Ahead, Inv, Tally, FindVote, Settled;
    var t := Next(s, step);
    RoundAfter(s, step, round);
    AheadStays(s, step, round, s.db.rounds[round].winner);
    if step.WriteHeld? && step.i in s.held && s.held[step.i].HeldFinish? && s.held[step.i].round == round {
      AheadStays(s, step, round, s.held[step.i].top);
    }
    forall i | i in t.held && t.held[i].HeldFinish? && t.held[i].round == round ensures Ahead(t, round, t.held[i].top) {
      FinishHeldBefore(s, step, i);
      if s.held[i].HeldDue? {
        assert DueHeld(s, round);
        SettledAnswers(s, round, t.held[i].top);
      }
      AheadStays(s, step, round, t.held[i].top);
    }
    if DueHeld(t, round) {
      DueHeldBefore(s, step, round);
      SettledStays(s, step, round);
    }
  }

  lemma RoundAfter(s: State, step: Step, round: nat)
    requires Inv(s) && round in s.db.rounds && !IsActive(s.db, round)
    ensures var t := Next(s, step);
            && round in t.db.rounds && !IsActive(t.db, round)
            && (t.db.rounds[round].winner == s.db.rounds[round].winner
                || (step.WriteHeld? && step.i in s.held && s.held[step.i].HeldFinish? && s.held[step.i].round == round
                    && t.db.rounds[round].winner == s.held[step.i].top))
  {
    hide Tally, FindVote;
  }

  lemma FinishHeldBefore(s: State, step: Step, i: nat)
    requires i in Next(s, step).held && Next(s, step).held[i].HeldFinish?
    ensures var h := Next(s, step).held[i];
            i in s.held && (s.held[i] == h || (s.held[i] == HeldDue(h.round) && IsTop(s.db, h.round, h.top)))
  {
    hide Tally, FindVote;
  }

  lemma DueHeldBefore(s: State, step: Step, round: nat)
    requires !IsActive(s.db, round) && DueHeld(Next(s, step), round)
    ensures DueHeld(s, round)
  {
    hide Tally, FindVote;
    var i :| i in Next(s, step).held && Next(s, step).held[i] == HeldDue(round);
    assert i in s.held && s.held[i] == HeldDue(round);
  }

  lemma AheadLeads(s: State, round: nat)
    requires Inv(s) && AheadForGood(s, round)
    ensures WinnerLeads(s.db, round)
  {
    hide Highest, Lowest, Inv, Tally, Settled;
    var winner := s.db.rounds[round].winner;
    forall p | p in s.db.proposals && InRound(s.db, p, round) ensures Contender(s, p, round) {}
    if winner.Some? {
      TallyIsWithin(s, winner.value);
      forall p | p in s.db.proposals && InRound(s.db, p, round)
        ensures Tally(s.db.votes, p) <= Tally(s.db.votes, winner.value)
      {
        if p != winner.value { TallyIsWithin(s, p); }
      }
    }
  }

  lemma {:induction false} AheadStaysAhead(s: State, round: nat, steps: seq<Step>)
    requires Inv(s) && AheadForGood(s, round) && !IsActive(s.db, round)
    ensures var t := After(s, steps);
            Inv(t) && AheadForGood(t, round) && !IsActive(t.db, round) && WinnerLeads(t.db, round)
  {
    if |steps| == 0 {
      AheadLeads(s, round);
    } else {
      hide AheadForGood, Inv;
      AheadStaysAhead(s, round, steps[..|steps| - 1]);
      var before := After(s, steps[..|steps| - 1]);
      NextKeeps(before, steps[|steps| - 1]);
      AheadForGoodStays(before, steps[|steps| - 1], round);
      AheadLeads(After(s, steps), round);
    }
  }

  // ---------------------------------------------------------------- whoever can pass the winner does so in some run

  ghost predicate LeadsForEver(s: State, round: nat) {
    forall steps :: WinnerLeads(After(s, steps).db, round)
  }

  lemma FreshKey<T>(m: map<nat, T>) returns (k: nat)
    ensures k !in m
  {
    k := Above(m.Keys);
  }

  lemma {:induction false} Above(keys: set<nat>) returns (k: nat)
    ensures forall x :: x in keys ==> x < k
    decreases |keys|
  {
    if keys == {} {
      k := 0;
    } else {
      var x :| x in keys;
      var rest := Above(keys - {x});
      k := if rest <= x then x + 1 else rest;
      assert forall y :: y in keys ==> y == x || y in keys - {x};
    }
  }

  /** When the recorded winner is not ahead, some run passes it. */
  lemma Passed(s: State, round: nat) returns (steps: seq<Step>)
    requires Inv(s) && round in s.db.rounds && !Ahead(s, round, s.db.rounds[round].winner)
    ensures !WinnerLeads(After(s, steps).db, round)
  {
    hide Highest, Lowest, Tally;
    var winner := s.db.rounds[round].winner;
    if p :| p in s.db.proposals && Contender(s, p, round)
            && (winner.None? || (p != winner.value && Lowest(s, winner.value) < Highest(s, p))) {
      if InRound(s.db, p, round) {
        steps := PassedBy(s, round, p);
      } else {
        var i :| i in s.held && s.held[i] == HeldEdit(p);
        steps := BroughtBack(s, round, i);
      }
    } else {
      var i :| i in s.held && s.held[i].HeldProposal? && s.held[i].round == round;
      var id := FreshKey(s.db.proposals);
      var step := WriteHeld(i, id, false);
      NextKeeps(s, step);
      InsertedIsEmpty(s, step, id);
      forall u, p ensures OwnOf(Next(s, step), u, p) == OwnOf(s, u, p) { OtherWriteKeeps(s, i, id, false, u, p); }
      SameOwns(s, Next(s, step), if winner.Some? then winner.value else id);
      var rest := PassedBy(Next(s, step), round, id);
      AfterFirst(s, step, rest);
      steps := [step] + rest;
    }
  }

  lemma BroughtBack(s: State, round: nat, i: nat) returns (steps: seq<Step>)
    requires Inv(s) && round in s.db.rounds && i in s.held && s.held[i].HeldEdit?
    requires Belongs(s.db, s.held[i].proposal, round)
    requires var winner, p := s.db.rounds[round].winner, s.held[i].proposal;
             winner.None? || (p != winner.value && Lowest(s, winner.value) < Highest(s, p))
    ensures !WinnerLeads(After(s, steps).db, round)
  {
    hide Highest, Lowest, Tally, Inv;
    var winner, p := s.db.rounds[round].winner, s.held[i].proposal;
    var step := WriteHeld(i, 0, false);
    NextKeeps(s, step);
    forall u, q ensures OwnOf(Next(s, step), u, q) == OwnOf(s, u, q) { OtherWriteKeeps(s, i, 0, false, u, q); }
    SameOwns(s, Next(s, step), p);
    SameOwns(s, Next(s, step), if winner.Some? then winner.value else p);
    var rest := PassedBy(Next(s, step), round, p);
    AfterFirst(s, step, rest);
    steps := [step] + rest;
  }

  lemma PassedBy(s: State, round: nat, p: nat) returns (steps: seq<Step>)
    requires Inv(s) && round in s.db.rounds && InRound(s.db, p, round)
    requires var winner := s.db.rounds[round].winner;
             winner.None? || (p != winner.value && Lowest(s, winner.value) < Highest(s, p))
    ensures !WinnerLeads(After(s, steps).db, round)
  {
    hide Highest, Lowest, Tally, Inv;
    var winner := s.db.rounds[round].winner;
    if winner.None? {
      steps := [];
    } else {
      steps := Overtakes(s, winner.value, p);
      var t := After(s, steps);
      assert p in t.db.proposals && InRound(t.db, p, round);
    }
  }

  // ---------------------------------------------------------------- a finaliser that is late

  predicate IsRoundHeld(h: Held) {
    h.HeldDue? || h.HeldFinish?
  }

  /** Only rounds, and what finalisers hold, differ. */
  ghost predicate OnlyRounds(s: State, t: State) {
    && t.db.votes == s.db.votes && t.db.proposals == s.db.proposals
    && (forall i :: i in s.held && !IsRoundHeld(s.held[i]) ==> i in t.held && t.held[i] == s.held[i])
    && (forall i :: i in t.held && !IsRoundHeld(t.held[i]) ==> i in s.held && s.held[i] == t.held[i])
  }

  lemma OnlyRoundsOwn(s: State, t: State, u: nat, p: nat)
    requires OnlyRounds(s, t)
    ensures OwnOf(t, u, p) == OwnOf(s, u, p)
  {
    hide FindVote;
    assert HeldFor(t.held, u, p) == HeldFor(s.held, u, p);
  }

  lemma SameAhead(s: State, t: State, round: nat, winner: Option<nat>)
    requires OnlyRounds(s, t) && Ahead(s, round, winner)
    ensures Ahead(t, round, winner)
  {
    hide Highest, Lowest, OwnOf, Belongs;
    forall p ensures Highest(t, p) == Highest(s, p) && Lowest(t, p) == Lowest(s, p) {
      forall u ensures OwnOf(t, u, p) == OwnOf(s, u, p) { OnlyRoundsOwn(s, t, u, p); }
      SameOwns(s, t, p);
    }
    forall p ensures Belongs(t.db, p, round) <==> Belongs(s.db, p, round) { SameBelongs(s.db, t.db, p, round); }
  }

  lemma SameBelongs(a: Db, b: Db, p: nat, round: nat)
    requires a.proposals == b.proposals
    ensures Belongs(a, p, round) <==> Belongs(b, p, round)
  {}

  lemma SameSettled(s: State, t: State, round: nat)
    requires OnlyRounds(s, t) && Settled(s, round)
    ensures Settled(t, round)
  {
    hide OwnOf, CanCross;
    forall u, p ensures OwnOf(t, u, p) == OwnOf(s, u, p) { OnlyRoundsOwn(s, t, u, p); }
    forall q, r | CanCross(t, q, r) ensures CanCross(s, q, r) { SameCross(t, s, q, r); }
  }

  lemma SameCross(s: State, t: State, q: nat, r: nat)
    requires CanCross(s, q, r) && forall u, p :: OwnOf(t, u, p) == OwnOf(s, u, p)
    ensures CanCross(t, q, r)
  {
    hide CanMove, SumOf, OwnOf;
    var a, b, c, d :| Crosses(s, q, r, a, b, c, d);
    SameMoves(s, t, q, a, b);
    SameMoves(s, t, r, c, d);
    assert Crosses(t, q, r, a, b, c, d);
  }

  /** When a late query can give an answer that is not ahead, some run passes that answer. */
  lemma AnswerBeaten(s: State, i: nat, top: Option<nat>) returns (steps: seq<Step>)
    requires Inv(s) && i in s.held && s.held[i].HeldDue? && IsTop(s.db, s.held[i].round, top)
    requires !Ahead(s, s.held[i].round, top)
    ensures !WinnerLeads(After(s, steps).db, s.held[i].round)
  {
    hide Ahead, Tally, Inv, FindVote, IsTop;
    var round := s.held[i].round;
    var read := ReadTop(i, top);
    var t := Next(s, read);
    NextKeeps(s, read);
    if Ahead(t, round, top) { SameAhead(t, s, round, top); }
    var rest := FinishPassed(t, i);
    AfterFirst(s, read, rest);
    steps := [read] + rest;
  }

  lemma FinishPassed(s: State, i: nat) returns (steps: seq<Step>)
    requires Inv(s) && i in s.held && s.held[i].HeldFinish? && !Ahead(s, s.held[i].round, s.held[i].top)
    ensures !WinnerLeads(After(s, steps).db, s.held[i].round)
  {
    hide Ahead, Inv;
    var id := FreshKey(s.db.rounds);
    var write := WriteHeld(i, id, false);
    NextKeeps(s, write);
    FinishTouchesNoVotes(s, i, id, false, s.held[i].top);
    var rest := Passed(Next(s, write), s.held[i].round);
    AfterFirst(s, write, rest);
    steps := [write] + rest;
  }

  /** The write of a finish leaves everything about votes and proposals as it was. */
  lemma FinishTouchesNoVotes(s: State, i: nat, id: nat, awarded: bool, winner: Option<nat>)
    requires Inv(s) && i in s.held && s.held[i].HeldFinish? && id !in s.db.rounds
    ensures var t, round := Next(s, WriteHeld(i, id, awarded)), s.held[i].round;
            && round in t.db.rounds && t.db.rounds[round] == Round(Finished, s.held[i].top)
            && t.held == s.held - {i}
            && (Ahead(s, round, winner) <==> Ahead(t, round, winner))
            && (Settled(s, round) <==> Settled(t, round))
  {
    hide Ahead, Settled, Tally, FindVote;
    var t, round := Next(s, WriteHeld(i, id, awarded)), s.held[i].round;
    assert OnlyRounds(s, t) && OnlyRounds(t, s);
    if Ahead(s, round, winner) { SameAhead(s, t, round, winner); }
    if Ahead(t, round, winner) { SameAhead(t, s, round, winner); }
    if Settled(s, round) { SameSettled(s, t, round); }
    if Settled(t, round) { SameSettled(t, s, round); }
  }

  function Survivors(db: Db, round: nat): set<nat> {
    set p | p in db.proposals && InRound(db, p, round)
  }

  /** Only the proposals of the round that are not to be kept differ, and those are deleted. */
  ghost predicate Deleted(s: State, t: State, round: nat, keep: set<nat>) {
    && Inv(t) && t.held == s.held && t.db.votes == s.db.votes && t.db.rounds == s.db.rounds
    && (forall p :: Belongs(t.db, p, round) <==> Belongs(s.db, p, round))
    && (forall p :: InRound(t.db, p, round) <==> InRound(s.db, p, round) && p in keep)
  }

  lemma DeleteOne(s: State, round: nat, p: nat)
    requires Inv(s) && InRound(s.db, p, round)
    ensures var t := Next(s, DeleteOwn(s.db.proposals[p].author, p));
            && Inv(t) && t.held == s.held && t.db.votes == s.db.votes && t.db.rounds == s.db.rounds
            && (forall q :: Belongs(t.db, q, round) <==> Belongs(s.db, q, round))
            && (forall q :: InRound(t.db, q, round) <==> InRound(s.db, q, round) && q != p)
  {
    hide Tally, FindVote;
    NextKeeps(s, DeleteOwn(s.db.proposals[p].author, p));
  }

  /** Authors can delete any proposals at any time. */
  lemma {:induction false} DeleteAllBut(s: State, round: nat, keep: set<nat>) returns (steps: seq<Step>)
    requires Inv(s)
    ensures Deleted(s, After(s, steps), round, keep)
    decreases |Survivors(s.db, round) - keep|
  {
    hide Inv, Next, InRound, Belongs;
    IsSurvivor(s.db, round);
    if Survivors(s.db, round) - keep == {} {
      steps := [];
      forall p | InRound(s.db, p, round) ensures p in keep {
        assert p in keep || p in Survivors(s.db, round) - keep;
      }
    } else {
      var p :| p in Survivors(s.db, round) - keep;
      var step := DeleteOwn(s.db.proposals[p].author, p);
      var t := Next(s, step);
      DeleteOne(s, round, p);
      IsSurvivor(t.db, round);
      assert Survivors(t.db, round) - keep == Survivors(s.db, round) - keep - {p};
      var rest := DeleteAllBut(t, round, keep);
      AfterFirst(s, step, rest);
      steps := [step] + rest;
    }
  }

  lemma IsSurvivor(db: Db, round: nat)
    ensures forall p :: p in Survivors(db, round) <==> InRound(db, p, round)
    ensures forall p :: InRound(db, p, round) ==> p in db.proposals
  {}

  /** Something can come back or come in once a late query has found nothing. */
  lemma NothingFound(s: State, i: nat) returns (steps: seq<Step>)
    requires Inv(s) && i in s.held && s.held[i].HeldDue?
    requires ProposalHeld(s, s.held[i].round)
             || exists j :: j in s.held && s.held[j].HeldEdit? && Belongs(s.db, s.held[j].proposal, s.held[i].round)
    ensures !WinnerLeads(After(s, steps).db, s.held[i].round)
  {
    hide Inv, WinnerLeads;
    var round := s.held[i].round;
    var first := DeleteAllBut(s, round, {});
    var t := After(s, first);
    assert !Ahead(t, round, None) by {
      if j :| j in s.held && s.held[j].HeldEdit? && Belongs(s.db, s.held[j].proposal, round) {
        assert Contender(t, s.held[j].proposal, round);
      } else {
        assert ProposalHeld(t, round);
      }
    }
    var rest := AnswerBeaten(t, i, None);
    AfterJoin(s, first, rest);
    steps := first + rest;
  }

  /** A proposal without votes can be put into an edit, deleted and brought back. */
  lemma StaleEdit(s: State, i: nat, p: nat) returns (steps: seq<Step>)
    requires Inv(s) && i in s.held && s.held[i].HeldDue? && InRound(s.db, p, s.held[i].round) && !HasVotes(s.db, p)
    ensures !WinnerLeads(After(s, steps).db, s.held[i].round)
  {
    hide Inv, WinnerLeads, HasVotes;
    var j := FreshKey(s.held);
    var step := StartEdit(j, s.db.proposals[p].author, p);
    var t := Next(s, step);
    NextKeeps(s, step);
    assert t.held[j] == HeldEdit(p) && t.held[i] == s.held[i];
    var rest := NothingFound(t, i);
    AfterFirst(s, step, rest);
    steps := [step] + rest;
  }

  /** Two survivors that can change places do so around the late query. */
  lemma PlacesChanged(s: State, i: nat, q: nat, r: nat) returns (steps: seq<Step>)
    requires Inv(s) && i in s.held && s.held[i].HeldDue? && q != r && CanCross(s, q, r)
    requires InRound(s.db, q, s.held[i].round) && InRound(s.db, r, s.held[i].round)
    ensures !WinnerLeads(After(s, steps).db, s.held[i].round)
  {
    hide Inv, WinnerLeads, CanCross, Ahead, IsTop, Tally;
    var round := s.held[i].round;
    var first := DeleteAllBut(s, round, {q, r});
    var t := After(s, first);
    forall u, p ensures OwnOf(t, u, p) == OwnOf(s, u, p) {}
    SameCross(s, t, q, r);
    var second := Crossing(t, q, r);
    var v := After(t, second);
    forall p | InRound(v.db, p, round) ensures p == q || p == r { assert InRound(t.db, p, round); }
    assert !Ahead(v, round, Some(q)) && IsTop(v.db, round, Some(q)) by { OnlyTwo(v, round, q, r); }
    var third := AnswerBeaten(v, i, Some(q));
    AfterJoin(t, second, third);
    AfterJoin(s, first, second + third);
    steps := first + (second + third);
  }

  lemma OnlyTwo(s: State, round: nat, q: nat, r: nat)
    requires q != r && InRound(s.db, q, round) && InRound(s.db, r, round)
    requires forall p :: InRound(s.db, p, round) ==> p == q || p == r
    requires Tally(s.db.votes, r) <= Tally(s.db.votes, q) && Lowest(s, q) < Highest(s, r)
    ensures !Ahead(s, round, Some(q)) && IsTop(s.db, round, Some(q))
  {
    hide Tally, Highest, Lowest;
    assert Contender(s, r, round);
  }

  lemma Crossing(s: State, q: nat, r: nat) returns (steps: seq<Step>)
    requires Inv(s) && q != r && CanCross(s, q, r)
    ensures var t := After(s, steps);
            && Inv(t) && OnlyVotes(s, t)
            && Tally(t.db.votes, r) <= Tally(t.db.votes, q) && Lowest(t, q) < Highest(t, r)
  {
    hide Inv, CanMove, SumOf, Tally, OwnOf, Comes, OnlyVotes, Lowest, Highest, After, At;
    var a, b, c, d :| Crosses(s, q, r, a, b, c, d);
    var first := Bring(s, q, a, b);
    var t := After(s, first);
    SameMoves(s, t, r, c, d);
    var rest := Bring(t, r, c, d);
    var v := After(t, rest);
    SameTally(t, v, q);
    forall u ensures Comes(OwnOf(v, u, q), At(b, u)) { assert OwnOf(v, u, q) == OwnOf(t, u, q); }
    WithinReach(v, q, b);
    WithinReach(v, r, d);
    VotesAfterVotes(s, t, v);
    AfterJoin(s, first, rest);
    steps := first + rest;
  }

  lemma WithinReach(s: State, p: nat, m: map<nat, int>)
    requires Inv(s) && forall u :: Comes(OwnOf(s, u, p), At(m, u))
    ensures Lowest(s, p) <= SumOf(m) <= Highest(s, p)
  {
    hide Inv, Comes, OwnOf, Bests, Worsts;
    forall u ensures At(Worsts(s, p), u) <= At(m, u) <= At(Bests(s, p), u) {
      BestAt(s, u, p);
      BestIsReached(s, u, p);
    }
    SumAtMost(Worsts(s, p), m);
    SumAtMost(m, Bests(s, p));
  }

  lemma LateAnswerPassed(s: State, round: nat) returns (steps: seq<Step>)
    requires Inv(s) && DueHeld(s, round) && !Settled(s, round)
    ensures !WinnerLeads(After(s, steps).db, round)
  {
    hide Inv, WinnerLeads, HasVotes, CanCross, ProposalHeld;
    var i :| i in s.held && s.held[i] == HeldDue(round);
    if ProposalHeld(s, round)
       || exists j :: j in s.held && s.held[j].HeldEdit? && Belongs(s.db, s.held[j].proposal, round) {
      steps := NothingFound(s, i);
    } else if p :| p in s.db.proposals && InRound(s.db, p, round) && !HasVotes(s.db, p) {
      steps := StaleEdit(s, i, p);
    } else {
      var q, r :| q in s.db.proposals && InRound(s.db, q, round) && r in s.db.proposals
                  && InRound(s.db, r, round) && q != r && CanCross(s, q, r);
      steps := PlacesChanged(s, i, q, r);
    }
  }

  // ---------------------------------------------------------------- exactly when

  /** The winner of a round that is finished is never passed, in no continuation, exactly when it is ahead
      of everything that is still under way. */
  lemma LeadsForEverExactlyWhen(s: State, round: nat)
    requires Inv(s) && round in s.db.rounds && !IsActive(s.db, round)
    ensures LeadsForEver(s, round) <==> AheadForGood(s, round)
  {
    hide Ahead, Inv, WinnerLeads, Settled, DueHeld;
    if AheadForGood(s, round) {
      forall steps ensures WinnerLeads(After(s, steps).db, round) { AheadStaysAhead(s, round, steps); }
    } else if !Ahead(s, round, s.db.rounds[round].winner) {
      var steps := Passed(s, round);
      assert !WinnerLeads(After(s, steps).db, round);
    } else if i :| i in s.held && s.held[i].HeldFinish? && s.held[i].round == round
                   && !Ahead(s, round, s.held[i].top) {
      var steps := FinishPassed(s, i);
      assert !WinnerLeads(After(s, steps).db, round);
    } else {
      var steps := LateAnswerPassed(s, round);
      assert !WinnerLeads(After(s, steps).db, round);
    }
  }

  // ---------------------------------------------------------------- at the finish

  /** What decides, before a finish is written, whether its winner can ever be passed. */
  ghost predicate SafeToFinish(s: State, i: nat)
    requires i in s.held && s.held[i].HeldFinish?
  {
    var round := s.held[i].round;
    && Ahead(s, round, s.held[i].top)
    && (forall j :: j in s.held && j != i && s.held[j].HeldFinish? && s.held[j].round == round ==>
          Ahead(s, round, s.held[j].top))
    && (DueHeld(s, round) ==> Settled(s, round))
  }

  lemma FinishLeadsForEverExactlyWhen(s: State, i: nat, id: nat, awarded: bool)
    requires Inv(s) && i in s.held && s.held[i].HeldFinish? && id !in s.db.rounds
    ensures LeadsForEver(Next(s, WriteHeld(i, id, awarded)), s.held[i].round) <==> SafeToFinish(s, i)
  {
    hide Ahead, Inv, WinnerLeads, LeadsForEver, Settled, Next;
    var t, round := Next(s, WriteHeld(i, id, awarded)), s.held[i].round;
    NextKeeps(s, WriteHeld(i, id, awarded));
    FinishTouchesNoVotes(s, i, id, awarded, s.held[i].top);
    LeadsForEverExactlyWhen(t, round);
    forall winner ensures Ahead(s, round, winner) <==> Ahead(t, round, winner) {
      FinishTouchesNoVotes(s, i, id, awarded, winner);
    }
    assert DueHeld(s, round) <==> DueHeld(t, round) by {
      forall j | j in s.held && s.held[j] == HeldDue(round) ensures j in t.held && t.held[j] == HeldDue(round) {}
    }
    if AheadForGood(t, round) {
      forall j | j in s.held && j != i && s.held[j].HeldFinish? && s.held[j].round == round
        ensures Ahead(s, round, s.held[j].top)
      {
        assert j in t.held && t.held[j] == s.held[j];
      }
    }
  }

  /** Nothing else is held for the round of the finish `i`. */
  predicate Quiet(s: State, i: nat)
    requires i in s.held && s.held[i].HeldFinish?
  {
    forall j :: j in s.held && j != i ==> !Targets(s.db, s.held[j], s.held[i].round)
  }

  predicate Targets(db: Db, h: Held, round: nat) {
    match h
    case HeldRequest(_, proposal, _) => Belongs(db, proposal, round)
    case HeldVote(_, proposal, _, _) => Belongs(db, proposal, round)
    case HeldProposal(r, _) => r == round
    case HeldEdit(proposal) => Belongs(db, proposal, round)
    case HeldDue(r) => r == round
    case HeldFinish(r, _) => r == round
  }

  /** With nothing else held for the round its winner is safe exactly when it still leads at the write:
      what happens between the query and the write is what can go wrong. */
  lemma QuietFinishExactlyWhen(s: State, i: nat, id: nat, awarded: bool)
    requires Inv(s) && i in s.held && s.held[i].HeldFinish? && id !in s.db.rounds && Quiet(s, i)
    ensures LeadsForEver(Next(s, WriteHeld(i, id, awarded)), s.held[i].round)
            <==> Leads(s.db, s.held[i].round, s.held[i].top)
  {
    hide Highest, Lowest, Tally, LeadsForEver, Inv, Settled, Next;
    FinishLeadsForEverExactlyWhen(s, i, id, awarded);
    var round, top := s.held[i].round, s.held[i].top;
    forall p | Belongs(s.db, p, round)
      ensures Tally(s.db.votes, p) == Highest(s, p) && Tally(s.db.votes, p) == Lowest(s, p)
    {
      NothingPending(s, i, p);
    }
    forall j | j in s.held && j != i ensures !Targets(s.db, s.held[j], round) {}
    forall p ensures Contender(s, p, round) <==> InRound(s.db, p, round) {}
  }

  lemma NothingPending(s: State, i: nat, p: nat)
    requires Inv(s) && i in s.held && s.held[i].HeldFinish? && Quiet(s, i) && Belongs(s.db, p, s.held[i].round)
    ensures Tally(s.db.votes, p) == Highest(s, p) && Tally(s.db.votes, p) == Lowest(s, p)
  {
    hide Bests, Worsts, Tally, Comes, Inv, Standing;
    forall u
      ensures Standing(s.db.votes, u, p) == At(Bests(s, p), u) && Standing(s.db.votes, u, p) == At(Worsts(s, p), u)
    {
      NoneUnderWay(s, i, u, p);
      BestAt(s, u, p);
      BestIsReached(s, u, p);
      OwnIsTyped(s, u, p);
      ComesExactlyWhen(OwnOf(s, u, p), Best(s, u, p));
      ComesExactlyWhen(OwnOf(s, u, p), Worst(s, u, p));
    }
    TallyOf(s, p, Bests(s, p));
    TallyOf(s, p, Worsts(s, p));
  }

  lemma NoneUnderWay(s: State, i: nat, u: nat, p: nat)
    requires i in s.held && s.held[i].HeldFinish? && Quiet(s, i) && Belongs(s.db, p, s.held[i].round)
    ensures OwnOf(s, u, p).pending == map[]
  {
    forall j | j in s.held && j != i ensures !IsFor(s.held[j], u, p) {
      assert !Targets(s.db, s.held[j], s.held[i].round);
    }
  }

  // ---------------------------------------------------------------- every run

  /** Every finished round's winner is ahead. */
  ghost predicate AllAhead(s: State) {
    forall r :: r in s.db.rounds && s.db.rounds[r].roundStatus == Finished ==> AheadForGood(s, r)
  }

  /** The step writes a finish whose winner can be passed. */
  ghost predicate FinishesUnsafely(s: State, step: Step) {
    && step.WriteHeld? && step.i in s.held && s.held[step.i].HeldFinish? && step.id !in s.db.rounds
    && !SafeToFinish(s, step.i)
  }

  lemma NextAheadExactlyWhen(s: State, step: Step)
    requires Inv(s) && AllAhead(s)
    ensures AllAhead(Next(s, step)) <==> !FinishesUnsafely(s, step)
  {
    hide AheadForGood, SafeToFinish, Inv, Tally, FindVote, LeadsForEver, IsTop;
    var t := Next(s, step);
    NextKeeps(s, step);
    forall r | r in t.db.rounds && t.db.rounds[r].roundStatus == Finished && r in s.db.rounds
      && s.db.rounds[r].roundStatus == Finished
      ensures AheadForGood(t, r)
    {
      AheadForGoodStays(s, step, r);
    }
    if step.WriteHeld? && step.i in s.held && s.held[step.i].HeldFinish? && step.id !in s.db.rounds {
      var round := s.held[step.i].round;
      FinishLeadsForEverExactlyWhen(s, step.i, step.id, step.awarded);
      FinishedAfter(s, step);
      LeadsForEverExactlyWhen(t, round);
    } else {
      assert t.db.rounds == s.db.rounds;
    }
  }

  lemma FinishedAfter(s: State, step: Step)
    requires Inv(s) && step.WriteHeld? && step.i in s.held && s.held[step.i].HeldFinish? && step.id !in s.db.rounds
    ensures var rounds, round := Next(s, step).db.rounds, s.held[step.i].round;
            && round in rounds && rounds[round].roundStatus == Finished
            && forall r ::
               r in rounds && rounds[r].roundStatus == Finished && r != round
               ==> r in s.db.rounds && s.db.rounds[r] == rounds[r]
  {}

  ghost predicate AlwaysAhead(s: State, steps: seq<Step>) {
    forall k :: 0 <= k <= |steps| ==> AllAhead(After(s, steps[..k]))
  }

  ghost predicate EverUnsafe(s: State, steps: seq<Step>) {
    exists k :: 0 <= k < |steps| && FinishesUnsafely(After(s, steps[..k]), steps[k])
  }

  /** Over every run: no recorded winner can at any time be passed exactly when no finish of the run is
      written while its winner can still be passed. */
  lemma {:induction false} WinnersLeadForEver(s: State, steps: seq<Step>)
    requires Inv(s) && AllAhead(s)
    ensures AlwaysAhead(s, steps) <==> !EverUnsafe(s, steps)
  {
    hide AllAhead, FinishesUnsafely, Inv, Next;
    assert steps[..|steps|] == steps;
    if |steps| == 0 {
      assert steps[..0] == steps;
    } else {
      var init, last := steps[..|steps| - 1], steps[|steps| - 1];
      WinnersLeadForEver(s, init);
      VotesStayUnique(s, init);
      LastStep(s, steps);
      if AlwaysAhead(s, init) {
        assert init[..|init|] == init;
        NextAheadExactlyWhen(After(s, init), last);
      }
    }
  }

  lemma LastStep(s: State, steps: seq<Step>)
    requires |steps| > 0
    ensures var init, last := steps[..|steps| - 1], steps[|steps| - 1];
            && (AlwaysAhead(s, steps) <==> AlwaysAhead(s, init) && AllAhead(After(s, steps)))
            && (EverUnsafe(s, steps) <==> EverUnsafe(s, init) || FinishesUnsafely(After(s, init), last))
  {
    hide AllAhead, FinishesUnsafely, After;
    var init := steps[..|steps| - 1];
    assert steps[..|steps|] == steps;
    assert forall k :: 0 <= k <= |init| ==> init[..k] == steps[..k];
    if AlwaysAhead(s, steps) {
      forall k | 0 <= k <= |init| ensures AllAhead(After(s, init[..k])) { assert AllAhead(After(s, steps[..k])); }
    }
    if EverUnsafe(s, init) {
      var k :| 0 <= k < |init| && FinishesUnsafely(After(s, init[..k]), init[k]);
      assert FinishesUnsafely(After(s, steps[..k]), steps[k]);
    }
    if EverUnsafe(s, steps) {
      var k :| 0 <= k < |steps| && FinishesUnsafely(After(s, steps[..k]), steps[k]);
      if k < |init| { assert FinishesUnsafely(After(s, init[..k]), init[k]); }
    }
  }
}

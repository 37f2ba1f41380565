/** The runs of proposal rounds in which a recorded winner is passed, or the number of active rounds grows. */
module ProposalRuns {
  import opened Option
  import opened ProposalBounds
  import opened ProposalRounds
  import opened Proposals
  import opened ProposalWinner

  /** One active round with two proposals of users 10 and 11. */
  function TwoProposals(votes: seq<Vote>): State {
    var proposals := map[0 := Proposal(0, 10, false), 1 := Proposal(0, 11, false)];
    State(Db(map[0 := Round(Active, None)], proposals, votes, [], []), map[])
  }

  lemma AfterFour(s: State, a: Step, b: Step, c: Step, d: Step)
    ensures After(s, [a, b, c, d]) == Next(Next(Next(Next(s, a), b), c), d)
  {
    AfterMore(s, [], a);
    AfterMore(s, [a], b);
    AfterMore(s, [a, b], c);
    AfterMore(s, [a, b, c], d);
    assert [] + [a] == [a] && [a] + [b] == [a, b] && [a, b] + [c] == [a, b, c] && [a, b, c] + [d] == [a, b, c, d];
  }

  lemma AfterFive(s: State, a: Step, b: Step, c: Step, d: Step, e: Step)
    ensures After(s, [a, b, c, d, e]) == Next(Next(Next(Next(Next(s, a), b), c), d), e)
  {
    AfterFour(s, a, b, c, d);
    AfterMore(s, [a, b, c, d], e);
    assert [a, b, c, d] + [e] == [a, b, c, d, e];
  }

  lemma AfterSix(s: State, a: Step, b: Step, c: Step, d: Step, e: Step, f: Step)
    ensures After(s, [a, b, c, d, e, f]) == Next(Next(Next(Next(Next(Next(s, a), b), c), d), e), f)
  {
    AfterFive(s, a, b, c, d, e);
    AfterMore(s, [a, b, c, d, e], f);
    assert [a, b, c, d, e] + [f] == [a, b, c, d, e, f];
  }

  lemma AfterMore(s: State, steps: seq<Step>, step: Step)
    ensures After(s, steps + [step]) == Next(After(s, steps), step)
  {
    assert (steps + [step])[..|steps|] == steps;
  }

  /** A finaliser selects the round, finds its best proposal and holds the finish. */
  lemma Selects(s: State, i: nat, round: nat, top: Option<nat>)
    requires i !in s.held && IsActive(s.db, round) && IsTop(s.db, round, top)
    ensures Next(Next(s, SelectDue(i, round)), ReadTop(i, top)) == s.(held := s.held[i := HeldFinish(round, top)])
  {
    hide Tally;
    var a := s.(held := s.held[i := HeldDue(round)]);
    assert Next(s, SelectDue(i, round)) == a;
    assert a.held[i := HeldFinish(round, top)] == s.held[i := HeldFinish(round, top)];
  }

  /** A user votes and the row is looked for. */
  lemma Votes(s: State, i: nat, user: nat, p: nat, voteType: int)
    requires i !in s.held && VoteType(voteType) && CheckVote(s.db, user, p, voteType).Allowed?
    ensures var row := FindVote(s.db.votes, user, p);
            Next(Next(s, StartVote(i, user, p, voteType)), FindRow(i))
            == s.(held := s.held[i := HeldVote(user, p, row, Decided(s.db.votes, row, voteType))])
  {
    var a := s.(held := s.held[i := HeldRequest(user, p, voteType)]);
    assert Next(s, StartVote(i, user, p, voteType)) == a;
    assert a.held[i := Found(s.db, a.held[i])] == s.held[i := Found(s.db, a.held[i])];
  }

  lemma Writes(s: State, i: nat, id: nat)
    requires i in s.held && Ready(s.held[i])
    ensures Next(s, WriteHeld(i, id, false)) == State(Written(s.db, s.held[i], id, false), s.held - {i})
  {}

  /** The finish of round 0 is written, and round 1 begins. */
  lemma FinishOfFirst(db: Db, top: Option<nat>)
    requires 0 in db.rounds && 1 !in db.rounds && (top.Some? ==> top.value in db.proposals)
    ensures var after := Written(db, HeldFinish(0, top), 1, false);
            && after.rounds == db.rounds[0 := Round(Finished, top)][1 := Round(Active, None)]
            && after.votes == db.votes && after.proposals == db.proposals
  {}

  /** A surviving proposal with more votes than the winner, or with no winner. */
  lemma NotLeading(db: Db, p: nat)
    requires 0 in db.rounds && InRound(db, p, 0)
    requires var winner := db.rounds[0].winner; winner.None? || Tally(db.votes, winner.value) < Tally(db.votes, p)
    ensures !WinnerLeads(db, 0)
  {}

  /** A vote that is checked and written while the finaliser is between its query and its write. */
  lemma VoteDuringFinish()
    ensures var t := After(TwoProposals([]),
                           [SelectDue(0, 0), ReadTop(0, Some(0)), StartVote(1, 5, 1, 1), FindRow(1),
                            WriteHeld(1, 0, false), WriteHeld(0, 1, false)]);
            t.held == map[] && 0 in t.db.rounds && t.db.rounds[0] == Round(Finished, Some(0)) && !WinnerLeads(t.db, 0)
  {
    hide After, Next, Tally, FindVote;
    var s := TwoProposals([]);
    AfterSix(s, SelectDue(0, 0), ReadTop(0, Some(0)), StartVote(1, 5, 1, 1), FindRow(1), WriteHeld(1, 0, false),
      WriteHeld(0, 1, false));
    NoTally(0);
    NoTally(1);
    Selects(s, 0, 0, Some(0));
    var a := s.(held := map[0 := HeldFinish(0, Some(0))]);
    Votes(a, 1, 5, 1, 1);
    var b := a.(held := a.held[1 := HeldVote(5, 1, None, 1)]);
    assert FindVote([], 5, 1) == None && b.held - {1} == a.held && [] + [Vote(5, 1, 1)] == [Vote(5, 1, 1)];
    Writes(b, 1, 0);
    var c := a.(db := a.db.(votes := [Vote(5, 1, 1)]));
    FinishOfFirst(c.db, Some(0));
    Writes(c, 0, 1);
    assert c.held - {0} == map[];
    OneVote();
    NotLeading(Written(c.db, HeldFinish(0, Some(0)), 1, false), 1);
  }

  lemma NoTally(p: nat)
    ensures Tally([], p) == 0
  {}

  lemma OneVote()
    ensures Tally([Vote(5, 1, 1)], 1) == 1 && Tally([Vote(5, 1, 1)], 0) == 0
  {
    assert [] + [Vote(5, 1, 1)] == [Vote(5, 1, 1)];
    TallyOfInsert([], Vote(5, 1, 1), 0);
    TallyOfInsert([], Vote(5, 1, 1), 1);
  }

  /** A vote for the winner that is taken back: the check came before the finish, the write comes after. */
  lemma VoteTakenBack()
    ensures var t := After(TwoProposals([Vote(5, 0, 1), Vote(6, 1, 1)]),
                           [StartVote(1, 5, 0, 1), FindRow(1), SelectDue(0, 0), ReadTop(0, Some(0)),
                            WriteHeld(0, 1, false), WriteHeld(1, 0, false)]);
            t.held == map[] && 0 in t.db.rounds && t.db.rounds[0] == Round(Finished, Some(0)) && !WinnerLeads(t.db, 0)
  {
    hide After, Next, Tally, FindVote;
    var votes, after := [Vote(5, 0, 1), Vote(6, 1, 1)], [Vote(5, 0, 0), Vote(6, 1, 1)];
    var s := TwoProposals(votes);
    AfterSix(s, StartVote(1, 5, 0, 1), FindRow(1), SelectDue(0, 0), ReadTop(0, Some(0)), WriteHeld(0, 1, false),
      WriteHeld(1, 0, false));
    FirstOfTwo(1, 1);
    FirstOfTwo(0, 1);
    Votes(s, 1, 5, 0, 1);
    var a := s.(held := map[1 := HeldVote(5, 0, Some(0), 0)]);
    Selects(a, 0, 0, Some(0));
    var b := a.(held := a.held[0 := HeldFinish(0, Some(0))]);
    Writes(b, 0, 1);
    FinishOfFirst(b.db, Some(0));
    var c := Next(b, WriteHeld(0, 1, false));
    assert c.held == a.held;
    Writes(c, 1, 0);
    assert votes[0 := votes[0].(voteType := 0)] == after && c.held - {1} == map[];
    NotLeading(Next(c, WriteHeld(1, 0, false)).db, 1);
  }

  lemma FirstOfTwo(x: int, y: int)
    ensures var votes := [Vote(5, 0, x), Vote(6, 1, y)];
            FindVote(votes, 5, 0) == Some(0) && Tally(votes, 0) == x && Tally(votes, 1) == y
  {
    var first, second := Vote(5, 0, x), Vote(6, 1, y);
    assert [first, second] == [first] + [second] && [first] == [] + [first];
    TallyOfInsert([], first, 0);
    TallyOfInsert([], first, 1);
    TallyOfInsert([first], second, 0);
    TallyOfInsert([first], second, 1);
    FindAfterInsert([], first, 5, 0);
    FindAfterInsert([first], second, 5, 0);
  }

  /** One active round with the given proposals and no votes. */
  function OneRound(proposals: map<nat, Proposal>): State {
    State(Db(map[0 := Round(Active, None)], proposals, [], [], []), map[])
  }

  /** A proposal that is checked before its empty round is finished and inserted after it. */
  lemma LateProposal()
    ensures var t := After(OneRound(map[]),
                           [StartProposal(1, 0, 10), SelectDue(0, 0), ReadTop(0, None), WriteHeld(0, 1, false),
                            WriteHeld(1, 7, false)]);
            t.held == map[] && 0 in t.db.rounds && t.db.rounds[0] == Round(Finished, None) && !WinnerLeads(t.db, 0)
  {
    hide After, Next, Tally;
    var s := OneRound(map[]);
    AfterFive(s, StartProposal(1, 0, 10), SelectDue(0, 0), ReadTop(0, None), WriteHeld(0, 1, false),
      WriteHeld(1, 7, false));
    var a := s.(held := map[1 := HeldProposal(0, 10)]);
    assert Next(s, StartProposal(1, 0, 10)) == a by { Starts(s); }
    Selects(a, 0, 0, None);
    var b := a.(held := a.held[0 := HeldFinish(0, None)]);
    Writes(b, 0, 1);
    FinishOfFirst(b.db, None);
    var c := Next(b, WriteHeld(0, 1, false));
    assert c.held == a.held;
    Writes(c, 1, 7);
    assert c.held - {1} == map[];
    NotLeading(Next(c, WriteHeld(1, 7, false)).db, 7);
  }

  lemma Starts(s: State)
    requires IsActive(s.db, 0) && s.held == map[]
    ensures Next(s, StartProposal(1, 0, 10)) == s.(held := map[1 := HeldProposal(0, 10)])
    ensures MayEdit(s.db, 11, 1) ==> Next(s, StartEdit(1, 11, 1)) == s.(held := map[1 := HeldEdit(1)])
  {}

  lemma Deletes(s: State, user: nat, p: nat)
    requires p in s.db.proposals && s.db.proposals[p].author == user
    ensures Next(s, DeleteOwn(user, p))
            == s.(db := s.db.(proposals := s.db.proposals[p := s.db.proposals[p].(deleted := true)]))
  {}

  /** An author starts an edit and deletes the proposal; the edit is written after the round is finished
      and brings the proposal back. */
  lemma EditBringsBack()
    ensures var t := After(OneRound(map[1 := Proposal(0, 11, false)]),
                           [StartEdit(1, 11, 1), DeleteOwn(11, 1), SelectDue(0, 0), ReadTop(0, None),
                            WriteHeld(0, 1, false), WriteHeld(1, 0, false)]);
            t.held == map[] && 0 in t.db.rounds && t.db.rounds[0] == Round(Finished, None) && !WinnerLeads(t.db, 0)
  {
    hide After, Next, Tally;
    var s := OneRound(map[1 := Proposal(0, 11, false)]);
    AfterSix(s, StartEdit(1, 11, 1), DeleteOwn(11, 1), SelectDue(0, 0), ReadTop(0, None), WriteHeld(0, 1, false),
      WriteHeld(1, 0, false));
    var a := s.(held := map[1 := HeldEdit(1)]);
    assert MayEdit(s.db, 11, 1);
    Starts(s);
    Deletes(a, 11, 1);
    var b := Next(a, DeleteOwn(11, 1));
    Selects(b, 0, 0, None);
    var c := b.(held := b.held[0 := HeldFinish(0, None)]);
    Writes(c, 0, 1);
    FinishOfFirst(c.db, None);
    var d := Next(c, WriteHeld(0, 1, false));
    assert d.held == a.held;
    Writes(d, 1, 0);
    assert d.held - {1} == map[];
    NotLeading(Next(d, WriteHeld(1, 0, false)).db, 1);
  }

  lemma Reads(s: State, i: nat, top: Option<nat>)
    requires i in s.held && s.held[i].HeldDue? && IsTop(s.db, s.held[i].round, top)
    ensures Next(s, ReadTop(i, top)) == s.(held := s.held[i := HeldFinish(s.held[i].round, top)])
  {}

  /** The state in which a second finaliser still holds the round that the first one has finished. */
  function HalfSelected(): State {
    State(Db(map[0 := Round(Finished, Some(0)), 1 := Round(Active, None)], map[0 := Proposal(0, 10, false)], [], [],
             [10]),
          map[1 := HeldDue(0), 2 := HeldProposal(0, 12)])
  }

  /** Two finalisers have selected the round. The first records proposal 0 as the winner, which is ahead of
      all that is held; the second queries after its author has deleted it, and records that there is none;
      then a held proposal comes in. */
  lemma SelectedTwice()
    ensures After(OneRound(map[0 := Proposal(0, 10, false)]),
                  [SelectDue(0, 0), SelectDue(1, 0), StartProposal(2, 0, 12), ReadTop(0, Some(0)),
                   WriteHeld(0, 1, false)])
            == HalfSelected()
    ensures Ahead(HalfSelected(), 0, Some(0))
    ensures var t := After(HalfSelected(),
                           [DeleteOwn(10, 0), ReadTop(1, None), WriteHeld(1, 2, false), WriteHeld(2, 7, false)]);
            t.held == map[] && 0 in t.db.rounds && t.db.rounds[0] == Round(Finished, None) && !WinnerLeads(t.db, 0)
  {
    hide Highest, Lowest, Next, After, WinnerLeads;
    FirstFinish();
    SecondFinish();
    NoVotesYet(HalfSelected(), 0);
  }

  lemma FirstFinish()
    ensures After(OneRound(map[0 := Proposal(0, 10, false)]),
                  [SelectDue(0, 0), SelectDue(1, 0), StartProposal(2, 0, 12), ReadTop(0, Some(0)),
                   WriteHeld(0, 1, false)])
            == HalfSelected()
  {
    hide After;
    var s := OneRound(map[0 := Proposal(0, 10, false)]);
    AfterFive(s, SelectDue(0, 0), SelectDue(1, 0), StartProposal(2, 0, 12), ReadTop(0, Some(0)),
      WriteHeld(0, 1, false));
    var a := s.(held := map[0 := HeldDue(0), 1 := HeldDue(0), 2 := HeldProposal(0, 12)]);
    assert Next(Next(Next(s, SelectDue(0, 0)), SelectDue(1, 0)), StartProposal(2, 0, 12)) == a;
    var b := a.(held := a.held[0 := HeldFinish(0, Some(0))]);
    assert Next(a, ReadTop(0, Some(0))) == b;
    assert b.held - {0} == HalfSelected().held;
    assert [] + [10] == [10];
  }

  lemma SecondFinish()
    ensures var t := After(HalfSelected(),
                           [DeleteOwn(10, 0), ReadTop(1, None), WriteHeld(1, 2, false), WriteHeld(2, 7, false)]);
            t.held == map[] && 0 in t.db.rounds && t.db.rounds[0] == Round(Finished, None) && !WinnerLeads(t.db, 0)
  {
    hide After, Next, Tally;
    var s := HalfSelected();
    AfterFour(s, DeleteOwn(10, 0), ReadTop(1, None), WriteHeld(1, 2, false), WriteHeld(2, 7, false));
    Deletes(s, 10, 0);
    var c := Next(s, DeleteOwn(10, 0));
    assert c.db.proposals == map[0 := Proposal(0, 10, true)] && IsTop(c.db, 0, None);
    Reads(c, 1, None);
    var d := Next(c, ReadTop(1, None));
    assert d.held == map[1 := HeldFinish(0, None), 2 := HeldProposal(0, 12)];
    Writes(d, 1, 2);
    var e := Next(d, WriteHeld(1, 2, false));
    assert e.held == map[2 := HeldProposal(0, 12)] && e.db.rounds[0] == Round(Finished, None);
    Writes(e, 2, 7);
    assert e.held - {2} == map[];
    NotLeading(Next(e, WriteHeld(2, 7, false)).db, 7);
  }

  lemma NoVotesYet(s: State, p: nat)
    requires s.db.votes == [] && forall i :: i in s.held ==> !IsVoteHeld(s.held[i])
    ensures Lowest(s, p) == 0
  {
    assert Voters(s, p) == {};
    assert Worsts(s, p) == map[];
  }

  /** Two finishes of one round that overlap leave two active rounds. */
  lemma FinishedTwice()
    ensures var t := After(TwoProposals([]),
                           [SelectDue(0, 0), ReadTop(0, Some(0)), SelectDue(1, 0), ReadTop(1, Some(1)),
                            WriteHeld(0, 1, false), WriteHeld(1, 2, false)]);
            && ActiveRounds(TwoProposals([]).db) == {0} && ActiveRounds(t.db) == {1, 2}
            && 0 in t.db.rounds && t.db.rounds[0] == Round(Finished, Some(1))
  {
    hide After;
    var s := TwoProposals([]);
    AfterSix(s, SelectDue(0, 0), ReadTop(0, Some(0)), SelectDue(1, 0), ReadTop(1, Some(1)), WriteHeld(0, 1, false),
      WriteHeld(1, 2, false));
    Selects(s, 0, 0, Some(0));
    var a := s.(held := map[0 := HeldFinish(0, Some(0))]);
    Selects(a, 1, 0, Some(1));
    var b := a.(held := a.held[1 := HeldFinish(0, Some(1))]);
    var c := Next(b, WriteHeld(0, 1, false));
    assert c.db.rounds == map[0 := Round(Finished, Some(0)), 1 := Round(Active, None)];
    assert c.held == map[1 := HeldFinish(0, Some(1))];
    var t := Next(c, WriteHeld(1, 2, false));
    assert t.db.rounds == map[0 := Round(Finished, Some(1)), 1 := Round(Active, None), 2 := Round(Active, None)];
  }
}

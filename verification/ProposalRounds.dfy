/**
 Proposal rounds under every interleaving. No query takes a lock, so anything may happen between what a
 request or the finaliser reads and what it reads or writes next: a vote checks the round, looks for the
 user's row and writes it; a new proposal checks the round; an edit reads the proposal and writes the row
 back; the finaliser selects the due rounds, queries each one's best proposal and writes the finish.
 */
module ProposalRounds {
  import opened Option
  import opened Proposals

  datatype Held =
    | HeldRequest(user: nat, proposal: nat, voteType: int)
    | HeldVote(user: nat, proposal: nat, row: Option<nat>, voteType: int)
    | HeldProposal(round: nat, author: nat)
    | HeldEdit(proposal: nat)
    | HeldDue(round: nat)
    | HeldFinish(round: nat, top: Option<nat>)

  datatype State = State(db: Db, held: map<nat, Held>)

  datatype Step =
    | StartVote(i: nat, user: nat, proposal: nat, voteType: int)
    | FindRow(i: nat)
    | StartProposal(i: nat, round: nat, author: nat)
    | StartEdit(i: nat, user: nat, proposal: nat)
    | SelectDue(i: nat, round: nat)
    | ReadTop(i: nat, top: Option<nat>)
    | WriteHeld(i: nat, id: nat, awarded: bool)
    | Abandon(i: nat)
    | DeleteOwn(user: nat, proposal: nat)

  predicate IsActive(db: Db, round: nat) {
    round in db.rounds && db.rounds[round].roundStatus == Active
  }

  /** Nothing is read any more before the write. */
  predicate Ready(h: Held) {
    !h.HeldRequest? && !h.HeldDue?
  }

  /** The write of what is held; `id` is the id of an inserted proposal or round. */
  function Written(db: Db, h: Held, id: nat, awarded: bool): Db
    requires Ready(h)
  {
    match h
    case HeldVote(user, proposal, row, voteType) => WriteVote(db, user, proposal, row, voteType, awarded)
    case HeldProposal(round, author) => CreateIn(db, id, round, author)
    case HeldEdit(proposal) => WriteEdit(db, proposal)
    case HeldFinish(round, top) =>
      if id in db.rounds || (top.Some? && top.value !in db.proposals) then db else Finish(db, round, top, id)
  }

  /** A step that is not possible changes nothing; a transaction that is rolled back is abandoned. */
  function Next(s: State, step: Step): State {
    match step
    case StartVote(i, user, proposal, voteType) =>
      if i !in s.held && VoteType(voteType) && CheckVote(s.db, user, proposal, voteType).Allowed?
      then s.(held := s.held[i := HeldRequest(user, proposal, voteType)]) else s
    case FindRow(i) =>
      if i in s.held && s.held[i].HeldRequest? then s.(held := s.held[i := Found(s.db, s.held[i])]) else s
    case StartProposal(i, round, author) =>
      if i !in s.held && IsActive(s.db, round) then s.(held := s.held[i := HeldProposal(round, author)]) else s
    case StartEdit(i, user, proposal) =>
      if i !in s.held && MayEdit(s.db, user, proposal) then s.(held := s.held[i := HeldEdit(proposal)]) else s
    case SelectDue(i, round) =>
      if i !in s.held && IsActive(s.db, round) then s.(held := s.held[i := HeldDue(round)]) else s
    case ReadTop(i, top) =>
      if i in s.held && s.held[i].HeldDue? && IsTop(s.db, s.held[i].round, top)
      then s.(held := s.held[i := HeldFinish(s.held[i].round, top)]) else s
    case WriteHeld(i, id, awarded) =>
      if i in s.held && Ready(s.held[i]) then State(Written(s.db, s.held[i], id, awarded), s.held - {i}) else s
    case Abandon(i) => s.(held := s.held - {i})
    case DeleteOwn(user, proposal) => s.(db := DeleteBy(s.db, user, proposal))
  }

  /** A vote whose row has been looked for. */
  function Found(db: Db, h: Held): Held
    requires h.HeldRequest?
  {
    var row := FindVote(db.votes, h.user, h.proposal);
    HeldVote(h.user, h.proposal, row, Decided(db.votes, row, h.voteType))
  }

  function After(s: State, steps: seq<Step>): State {
    if |steps| == 0 then s else Next(After(s, steps[..|steps| - 1]), steps[|steps| - 1])
  }

  // ---------------------------------------------------------------- what every step keeps

  /** One row for each user and proposal. */
  predicate OneVoteEach(votes: seq<Vote>) {
    forall i, j :: 0 <= i < j < |votes| ==> !(votes[i].user == votes[j].user && votes[i].proposal == votes[j].proposal)
  }

  predicate NoOwnVotes(db: Db) {
    forall i :: 0 <= i < |db.votes| ==>
      && VoteType(db.votes[i].voteType)
      && db.votes[i].proposal in db.proposals
      && db.proposals[db.votes[i].proposal].author != db.votes[i].user
  }

  /** At most one award for each user and proposal, and only for a vote that is there. */
  predicate RewardedOnce(db: Db) {
    && (forall i, j :: 0 <= i < j < |db.rewards| ==> db.rewards[i] != db.rewards[j])
    && forall i :: 0 <= i < |db.rewards| ==> FindVote(db.votes, db.rewards[i].0, db.rewards[i].1).Some?
  }

  /** A round has a winner only once it is finished, and then one of its own proposals. */
  predicate RoundsSound(db: Db) {
    forall r :: r in db.rounds && db.rounds[r].winner.Some? ==>
      db.rounds[r].roundStatus == Finished && Belongs(db, db.rounds[r].winner.value, r)
  }

  predicate Wellformed(db: Db, h: Held) {
    match h
    case HeldRequest(user, proposal, voteType) =>
      VoteType(voteType) && proposal in db.proposals && db.proposals[proposal].author != user
    case HeldVote(user, proposal, row, voteType) =>
      && VoteType(voteType) && proposal in db.proposals && db.proposals[proposal].author != user
      && (row.Some? ==> row.value < |db.votes| && IsVoteOf(db.votes[row.value], user, proposal))
    case HeldProposal(_, _) => true
    case HeldEdit(proposal) => proposal in db.proposals
    case HeldDue(round) => round in db.rounds
    case HeldFinish(round, top) => round in db.rounds && (top.Some? ==> Belongs(db, top.value, round))
  }

  ghost predicate Inv(s: State) {
    && OneVoteEach(s.db.votes)
    && NoOwnVotes(s.db)
    && RewardedOnce(s.db)
    && RoundsSound(s.db)
    && forall i :: i in s.held ==> Wellformed(s.db, s.held[i])
  }

  lemma FindIsSome(votes: seq<Vote>, k: nat)
    requires k < |votes|
    ensures FindVote(votes, votes[k].user, votes[k].proposal).Some?
  {
    assert IsVoteOf(votes[k], votes[k].user, votes[k].proposal);
  }

  lemma WriteVoteKeeps(db: Db, user: nat, proposal: nat, row: Option<nat>, voteType: int, awarded: bool)
    requires OneVoteEach(db.votes) && NoOwnVotes(db) && RewardedOnce(db)
    requires Wellformed(db, HeldVote(user, proposal, row, voteType))
    ensures var w := WriteVote(db, user, proposal, row, voteType, awarded);
            && OneVoteEach(w.votes) && NoOwnVotes(w) && RewardedOnce(w)
            && w.proposals == db.proposals && w.rounds == db.rounds && |db.votes| <= |w.votes|
            && forall i :: 0 <= i < |db.votes| ==>
                 w.votes[i].user == db.votes[i].user && w.votes[i].proposal == db.votes[i].proposal
  {
    hide FindVote;
    var w := WriteVote(db, user, proposal, row, voteType, awarded);
    forall i | 0 <= i < |db.rewards| ensures FindVote(w.votes, db.rewards[i].0, db.rewards[i].1).Some? {
      FindIsSome(w.votes, FindVote(db.votes, db.rewards[i].0, db.rewards[i].1).value);
    }
    if |w.rewards| > |db.rewards| { FindIsSome(w.votes, |db.votes|); }
  }

  /** Rows stay where they are: proposals in their round and with their author, votes with their user. */
  ghost predicate Grows(db: Db, after: Db) {
    && (forall p :: p in db.proposals ==>
          && p in after.proposals && after.proposals[p].author == db.proposals[p].author
          && after.proposals[p].round == db.proposals[p].round)
    && (forall r :: r in db.rounds ==> r in after.rounds)
    && |db.votes| <= |after.votes|
    && forall i :: 0 <= i < |db.votes| ==>
         after.votes[i].user == db.votes[i].user && after.votes[i].proposal == db.votes[i].proposal
  }

  lemma GrowsKeeps(db: Db, after: Db, h: Held)
    requires Grows(db, after) && Wellformed(db, h)
    ensures Wellformed(after, h)
  {}

  lemma WrittenKeeps(s: State, i: nat, id: nat, awarded: bool)
    requires Inv(s) && i in s.held && Ready(s.held[i])
    ensures Inv(Next(s, WriteHeld(i, id, awarded)))
  {
    hide Wellformed, OneVoteEach, NoOwnVotes, RewardedOnce, RoundsSound, FindVote, Grows;
    var t := Next(s, WriteHeld(i, id, awarded));
    assert Wellformed(s.db, s.held[i]);
    WrittenIsSound(s.db, s.held[i], id, awarded);
    forall j | j in t.held ensures Wellformed(t.db, t.held[j]) { GrowsKeeps(s.db, t.db, s.held[j]); }
  }

  lemma WrittenIsSound(db: Db, h: Held, id: nat, awarded: bool)
    requires OneVoteEach(db.votes) && NoOwnVotes(db) && RewardedOnce(db) && RoundsSound(db)
    requires Wellformed(db, h) && Ready(h)
    ensures var w := Written(db, h, id, awarded);
            OneVoteEach(w.votes) && NoOwnVotes(w) && RewardedOnce(w) && RoundsSound(w) && Grows(db, w)
  {
    hide FindVote, OneVoteEach, NoOwnVotes, RewardedOnce;
    match h {
      case HeldVote(user, proposal, row, voteType) => WriteVoteKeeps(db, user, proposal, row, voteType, awarded);
      case HeldProposal(round, author) => CreateKeeps(db, id, round, author);
      case HeldEdit(proposal) => EditKeeps(db, proposal);
      case HeldFinish(round, top) => FinishKeeps(db, round, top, id);
    }
  }

  lemma CreateKeeps(db: Db, id: nat, round: nat, author: nat)
    requires NoOwnVotes(db) && RewardedOnce(db)
    ensures NoOwnVotes(CreateIn(db, id, round, author)) && RewardedOnce(CreateIn(db, id, round, author))
  {}

  lemma EditKeeps(db: Db, p: nat)
    requires NoOwnVotes(db) && RewardedOnce(db)
    ensures NoOwnVotes(WriteEdit(db, p)) && RewardedOnce(WriteEdit(db, p))
  {}

  lemma FinishKeeps(db: Db, round: nat, top: Option<nat>, next: nat)
    requires NoOwnVotes(db) && RewardedOnce(db) && (top.Some? ==> top.value in db.proposals)
    ensures NoOwnVotes(Finish(db, round, top, next)) && RewardedOnce(Finish(db, round, top, next))
  {}

  lemma NextKeeps(s: State, step: Step)
    requires Inv(s)
    ensures Inv(Next(s, step))
  {
    hide FindVote, Tally;
    match step {
      case WriteHeld(i, id, awarded) => if i in s.held && Ready(s.held[i]) { WrittenKeeps(s, i, id, awarded); }
      case _ =>
    }
  }

  /** Under every interleaving each user has at most one vote and one award for a proposal, authors do
      not vote on their own, and only finished rounds have a winner, one of their own proposals. */
  lemma {:induction false} VotesStayUnique(s: State, steps: seq<Step>)
    requires Inv(s)
    ensures Inv(After(s, steps))
  {
    if |steps| == 0 {
    } else {
      VotesStayUnique(s, steps[..|steps| - 1]);
      NextKeeps(After(s, steps[..|steps| - 1]), steps[|steps| - 1]);
    }
  }

  /** What comes under way, and when: a vote on another's proposal in an active round, a proposal in an active
      round, an edit by the author of a proposal that is there and has no votes, and a selected round. */
  lemma StartsExactlyWhen(s: State, i: nat, user: nat, p: nat, round: nat, voteType: int)
    requires i !in s.held
    ensures var t := Next(s, StartVote(i, user, p, voteType));
            t.db == s.db && t.held - {i} == s.held && (i in t.held ==> t.held[i] == HeldRequest(user, p, voteType))
            && (i in t.held <==>
                  && -1 <= voteType <= 1 && p in s.db.proposals && !s.db.proposals[p].deleted
                  && s.db.proposals[p].author != user && s.db.proposals[p].round in s.db.rounds
                  && s.db.rounds[s.db.proposals[p].round].roundStatus == Active)
    ensures var t := Next(s, StartProposal(i, round, user));
            t.db == s.db && t.held - {i} == s.held && (i in t.held ==> t.held[i] == HeldProposal(round, user))
            && (i in t.held <==> round in s.db.rounds && s.db.rounds[round].roundStatus == Active)
    ensures var t := Next(s, StartEdit(i, user, p));
            t.db == s.db && t.held - {i} == s.held && (i in t.held ==> t.held[i] == HeldEdit(p))
            && (i in t.held <==>
                  && p in s.db.proposals && !s.db.proposals[p].deleted && s.db.proposals[p].author == user
                  && forall k :: 0 <= k < |s.db.votes| ==> s.db.votes[k].proposal != p)
    ensures var t := Next(s, SelectDue(i, round));
            t.db == s.db && t.held - {i} == s.held && (i in t.held ==> t.held[i] == HeldDue(round))
            && (i in t.held <==> round in s.db.rounds && s.db.rounds[round].roundStatus == Active)
  {
    hide FindVote, Tally;
    assert s.held - {i} == s.held;
    assert s.held[i := HeldRequest(user, p, voteType)] - {i} == s.held;
    assert s.held[i := HeldProposal(round, user)] - {i} == s.held;
    assert s.held[i := HeldEdit(p)] - {i} == s.held;
    assert s.held[i := HeldDue(round)] - {i} == s.held;
  }

  // ---------------------------------------------------------------- how many rounds are active

  /** The step finishes a round that somebody else has finished already. */
  predicate FinishesAgain(s: State, step: Step) {
    && step.WriteHeld? && step.i in s.held && s.held[step.i].HeldFinish?
    && step.id !in s.db.rounds && !IsActive(s.db, s.held[step.i].round)
  }

  function SecondFinishes(s: State, steps: seq<Step>): nat {
    if |steps| == 0 then 0
    else SecondFinishes(s, steps[..|steps| - 1])
         + if FinishesAgain(After(s, steps[..|steps| - 1]), steps[|steps| - 1]) then 1 else 0
  }

  lemma NextCountsRounds(s: State, step: Step)
    requires Inv(s)
    ensures |ActiveRounds(Next(s, step).db)| == |ActiveRounds(s.db)| + if FinishesAgain(s, step) then 1 else 0
  {
    hide FindVote, Tally;
    var t := Next(s, step);
    if step.WriteHeld? && step.i in s.held && s.held[step.i].HeldFinish? && step.id !in s.db.rounds {
      FinishCountsRounds(s.db, s.held[step.i].round, s.held[step.i].top, step.id);
    } else {
      assert t.db.rounds == s.db.rounds;
    }
  }

  /** The number of active rounds stays the same over a run exactly when no round is finished twice; every
      second finish opens one round too many. */
  lemma {:induction false} ActiveRoundsCount(s: State, steps: seq<Step>)
    requires Inv(s)
    ensures |ActiveRounds(After(s, steps).db)| == |ActiveRounds(s.db)| + SecondFinishes(s, steps)
  {
    if |steps| == 0 {
    } else {
      ActiveRoundsCount(s, steps[..|steps| - 1]);
      VotesStayUnique(s, steps[..|steps| - 1]);
      NextCountsRounds(After(s, steps[..|steps| - 1]), steps[|steps| - 1]);
    }
  }
}

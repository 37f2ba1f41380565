/**
 Proposal rounds: src/modules/proposal/proposal.service.ts and
 src/workers/finalize-proposal-rounds.worker.ts, one request or run at a time.

 The vote table has a unique index on user and proposal and its rows are never removed.
 */
module Proposals {
  import opened Option

  datatype RoundStatus = Initialized | Active | Finished

  datatype Round = Round(roundStatus: RoundStatus, winner: Option<nat>)

  datatype Proposal = Proposal(round: nat, author: nat, deleted: bool)

  /** A vote counts 1, -1, or 0 when it was neutralised. */
  datatype Vote = Vote(user: nat, proposal: nat, voteType: int)

  /** `rewards` are the users and proposals for which vote points were awarded, `prizes` the authors
      that received the winner's points. */
  datatype Db = Db(rounds: map<nat, Round>, proposals: map<nat, Proposal>, votes: seq<Vote>,
                   rewards: seq<(nat, nat)>, prizes: seq<nat>)

  predicate VoteType(t: int) {
    -1 <= t <= 1
  }

  function Tally(votes: seq<Vote>, proposal: nat): int {
    if |votes| == 0 then 0
    else if votes[|votes| - 1].proposal == proposal
      then Tally(votes[..|votes| - 1], proposal) + votes[|votes| - 1].voteType
    else Tally(votes[..|votes| - 1], proposal)
  }

  predicate InRound(db: Db, p: nat, round: nat) {
    p in db.proposals && db.proposals[p].round == round && !db.proposals[p].deleted
  }

  /** A possible answer of the query for a round's best proposal: ties are broken either way. */
  predicate IsTop(db: Db, round: nat, top: Option<nat>) {
    match top
    case None => forall p :: p in db.proposals ==> !InRound(db, p, round)
    case Some(w) => InRound(db, w, round) && forall p :: p in db.proposals && InRound(db, p, round) ==>
                                               Tally(db.votes, p) <= Tally(db.votes, w)
  }

  predicate Belongs(db: Db, p: nat, round: nat) {
    p in db.proposals && db.proposals[p].round == round
  }

  /** No surviving proposal of the round has more votes than the winner, which may itself be deleted. */
  predicate Leads(db: Db, round: nat, winner: Option<nat>) {
    match winner
    case None => forall p :: p in db.proposals ==> !InRound(db, p, round)
    case Some(w) =>
      Belongs(db, w, round)
        && forall p :: p in db.proposals && InRound(db, p, round) ==> Tally(db.votes, p) <= Tally(db.votes, w)
  }

  /** The recorded winner of a round leads. */
  predicate WinnerLeads(db: Db, round: nat) {
    round in db.rounds && Leads(db, round, db.rounds[round].winner)
  }

  // ---------------------------------------------------------------- operations

  datatype Refusal = NoProposal | NoRound | RoundNotActive | AuthorCannotVote

  datatype Checked = Refused(why: Refusal) | Allowed(row: Option<nat>, voteType: int)

  predicate IsVoteOf(v: Vote, user: nat, proposal: nat) {
    v.user == user && v.proposal == proposal
  }

  function FindVote(votes: seq<Vote>, user: nat, proposal: nat): (r: Option<nat>)
    ensures r.Some? ==> r.value < |votes| && IsVoteOf(votes[r.value], user, proposal)
    ensures r.None? ==> forall i :: 0 <= i < |votes| ==> !IsVoteOf(votes[i], user, proposal)
  {
    if |votes| == 0 then None
    else if IsVoteOf(votes[|votes| - 1], user, proposal) then Some(|votes| - 1)
    else FindVote(votes[..|votes| - 1], user, proposal)
  }

  /** The first half of a vote: whether it is allowed, the user's existing row if any, and the type that
      will be written. */
  function CheckVote(db: Db, user: nat, proposal: nat, voteType: int): Checked {
    if proposal !in db.proposals || db.proposals[proposal].deleted then Refused(NoProposal)
    else if db.proposals[proposal].round !in db.rounds then Refused(NoRound)
    else if db.rounds[db.proposals[proposal].round].roundStatus != Active then Refused(RoundNotActive)
    else if user == db.proposals[proposal].author then Refused(AuthorCannotVote)
    else
      var row := FindVote(db.votes, user, proposal);
      Allowed(row, Decided(db.votes, row, voteType))
  }

  /** The type that will be written, decided by the row that was found: voting the same way again
      neutralises. */
  function Decided(votes: seq<Vote>, row: Option<nat>, voteType: int): int
    requires row.Some? ==> row.value < |votes|
  {
    if row.Some? && votes[row.value].voteType == voteType then 0 else voteType
  }

  /** The second half: the row that was found is updated, otherwise one is inserted and rewarded. The
      unique index refuses a second row; a failing award (`awarded` false) only loses the points. */
  function WriteVote(db: Db, user: nat, proposal: nat, row: Option<nat>, voteType: int, awarded: bool): Db {
    match row
    case Some(k) => if k < |db.votes| then db.(votes := db.votes[k := db.votes[k].(voteType := voteType)]) else db
    case None =>
      if FindVote(db.votes, user, proposal).Some? then db
      else db.(votes := db.votes + [Vote(user, proposal, voteType)],
               rewards := if awarded then db.rewards + [(user, proposal)] else db.rewards)
  }

  function CreateIn(db: Db, id: nat, round: nat, author: nat): Db {
    if id in db.proposals then db else db.(proposals := db.proposals[id := Proposal(round, author, false)])
  }

  function DeleteBy(db: Db, user: nat, proposal: nat): Db {
    if proposal in db.proposals && db.proposals[proposal].author == user
    then db.(proposals := db.proposals[proposal := db.proposals[proposal].(deleted := true)]) else db
  }

  predicate HasVotes(db: Db, p: nat) {
    exists k :: 0 <= k < |db.votes| && db.votes[k].proposal == p
  }

  /** The check of an edit, which does not ask for the round. */
  predicate MayEdit(db: Db, user: nat, p: nat) {
    p in db.proposals && !db.proposals[p].deleted && db.proposals[p].author == user && !HasVotes(db, p)
  }

  /** The write of an edit: the whole row that was read goes back, its status included. */
  function WriteEdit(db: Db, p: nat): Db {
    if p in db.proposals then db.(proposals := db.proposals[p := db.proposals[p].(deleted := false)]) else db
  }

  /** One round finished with its best proposal, and the next one opened. The round is written from a
      copy without a winner. */
  function Finish(db: Db, round: nat, top: Option<nat>, next: nat): Db
    requires top.Some? ==> top.value in db.proposals
  {
    db.(rounds := db.rounds[round := Round(Finished, top)][next := Round(Active, None)],
        prizes := if top.Some? then db.prizes + [db.proposals[top.value].author] else db.prizes)
  }

  class ProposalService {
    var db: Db

    constructor (content: Db)
      ensures db == content
    {
      db := content;
    }

    method VoteOnProposal(user: nat, proposalId: nat, voteType: int, awarded: bool) returns (refused: Option<Refusal>)
      modifies this
      ensures match CheckVote(old(db), user, proposalId, voteType)
              case Refused(why) => refused == Some(why) && db == old(db)
              case Allowed(row, written) =>
                refused == None && db == WriteVote(old(db), user, proposalId, row, written, awarded)
      ensures refused == Some(NoProposal) <==>
                proposalId !in old(db).proposals || old(db).proposals[proposalId].deleted
      ensures refused != Some(NoProposal) ==>
                var proposal, rounds := old(db).proposals[proposalId], old(db).rounds;
                && (refused == Some(NoRound) <==> proposal.round !in rounds)
                && (refused != Some(NoRound) ==>
                      && (refused == Some(RoundNotActive) <==> rounds[proposal.round].roundStatus != Active)
                      && (refused == Some(AuthorCannotVote) <==>
                            rounds[proposal.round].roundStatus == Active && user == proposal.author))
      ensures refused.Some? ==> db == old(db)
      ensures refused.None? ==> db.rounds == old(db).rounds && db.proposals == old(db).proposals
                                && db.prizes == old(db).prizes
      ensures refused.None? ==>
                if exists k :: 0 <= k < |old(db).votes| && IsVoteOf(old(db).votes[k], user, proposalId)
                then && db.rewards == old(db).rewards
                     && exists k :: 0 <= k < |old(db).votes| && IsVoteOf(old(db).votes[k], user, proposalId)
                          && var was := old(db).votes[k].voteType;
                             db.votes == old(db).votes[k := Vote(user, proposalId,
                                                                 if was == voteType then 0 else voteType)]
                else && db.votes == old(db).votes + [Vote(user, proposalId, voteType)]
                     && db.rewards == old(db).rewards + if awarded then [(user, proposalId)] else []
    {
      if proposalId !in db.proposals || db.proposals[proposalId].deleted { return Some(NoProposal); }
      var proposal := db.proposals[proposalId];
      if proposal.round !in db.rounds { return Some(NoRound); }
      if db.rounds[proposal.round].roundStatus != Active { return Some(RoundNotActive); }
      if user == proposal.author { return Some(AuthorCannotVote); }
      refused := None;
      var existing := FindVote(db.votes, user, proposalId);
      if existing.Some? {
        var vote := db.votes[existing.value];
        if vote.voteType == voteType {
          db := db.(votes := db.votes[existing.value := vote.(voteType := 0)]);
          return;
        }
        db := db.(votes := db.votes[existing.value := vote.(voteType := voteType)]);
        return;
      }
      db := db.(votes := db.votes + [Vote(user, proposalId, voteType)]);
      if awarded { db := db.(rewards := db.rewards + [(user, proposalId)]); }
    }

    /** One run of the finaliser over the rounds that are due. `top` is what the query for a round's best
        proposal returned, `failing` are rounds whose transaction rolls back, `nextId` the ids of inserted
        rounds. The winner leads when the answer is still right at the write. */
    method FinalizeProposalRounds(due: seq<nat>, top: nat -> Option<nat>, failing: set<nat>, nextId: nat)
      requires forall i :: 0 <= i < |due| ==> due[i] in db.rounds && db.rounds[due[i]] == Round(Active, None)
      requires forall i, j :: 0 <= i < j < |due| ==> due[i] != due[j]
      requires forall i :: 0 <= i < |due| && top(due[i]).Some? ==> Belongs(db, top(due[i]).value, due[i])
      requires forall r :: r in db.rounds ==> r < nextId
      modifies this
      ensures db.votes == old(db.votes) && db.proposals == old(db.proposals) && db.rewards == old(db.rewards)
      ensures forall i :: 0 <= i < |due| ==>
                due[i] in db.rounds
                && db.rounds[due[i]] == if due[i] in failing then Round(Active, None) else Round(Finished, top(due[i]))
      ensures forall i :: 0 <= i < |due| && due[i] !in failing && IsTop(old(db), due[i], top(due[i])) ==>
                WinnerLeads(db, due[i])
      ensures forall r :: r in old(db.rounds) && r !in due ==> r in db.rounds && db.rounds[r] == old(db.rounds)[r]
      ensures |ActiveRounds(db)| == |ActiveRounds(old(db))|
      ensures db.prizes == old(db).prizes + Prizes(due, top, failing, old(db).proposals)
    {
      hide Tally, FindVote, ActiveRounds, IsTop, Leads, Finish, WinnerLeads, Prizes, DueRound;
      NoPrizes(top, failing, db.proposals);
      var next := nextId;
      for i := 0 to |due|
        invariant db.votes == old(db.votes) && db.proposals == old(db.proposals) && db.rewards == old(db.rewards)
        invariant forall r :: r in db.rounds ==> r < next
        invariant forall k :: i <= k < |due| ==> due[k] in db.rounds && db.rounds[due[k]] == Round(Active, None)
        invariant forall k :: 0 <= k < i ==> due[k] in db.rounds && db.rounds[due[k]] == DueRound(due[k], top, failing)
        invariant forall r :: r in old(db.rounds) && r !in due ==> r in db.rounds && db.rounds[r] == old(db.rounds)[r]
        invariant |ActiveRounds(db)| == |ActiveRounds(old(db))|
        invariant db.prizes == old(db).prizes + Prizes(due[..i], top, failing, old(db).proposals)
      {
        OneMorePrize(due, i, top, failing, db.proposals);
        DueRoundIs(due[i], top, failing);
        if due[i] in failing { continue; }
        var winner := top(due[i]);
        FinishCountsRounds(db, due[i], winner, next);
        FinishIs(db, due[i], winner, next);
        db := Finish(db, due[i], winner, next);
        next := next + 1;
      }
      assert due[..|due|] == due;
      forall i | 0 <= i < |due|
        ensures db.rounds[due[i]] == if due[i] in failing then Round(Active, None) else Round(Finished, top(due[i]))
      {
        DueRoundIs(due[i], top, failing);
      }
      forall i | 0 <= i < |due| && due[i] !in failing && IsTop(old(db), due[i], top(due[i]))
        ensures WinnerLeads(db, due[i])
      {
        TopLeads(old(db), db, due[i], top(due[i]));
        LeadsIs(db, due[i]);
      }
    }
  }

  /** The authors of the winners, in the order of the rounds. */
  function Prizes(due: seq<nat>, top: nat -> Option<nat>, failing: set<nat>, proposals: map<nat, Proposal>): seq<nat>
  {
    if |due| == 0 then []
    else
      var r := due[|due| - 1];
      Prizes(due[..|due| - 1], top, failing, proposals)
      + if r !in failing && top(r).Some? && top(r).value in proposals then [proposals[top(r).value].author] else []
  }

  lemma NoPrizes(top: nat -> Option<nat>, failing: set<nat>, proposals: map<nat, Proposal>)
    ensures forall due: seq<nat> :: Prizes(due[..0], top, failing, proposals) == []
  {}

  lemma OneMorePrize(due: seq<nat>, i: nat, top: nat -> Option<nat>, failing: set<nat>, proposals: map<nat, Proposal>)
    requires i < |due|
    ensures Prizes(due[..i + 1], top, failing, proposals)
            == Prizes(due[..i], top, failing, proposals)
               + if due[i] !in failing && top(due[i]).Some? && top(due[i]).value in proposals
                 then [proposals[top(due[i]).value].author] else []
  {
    assert due[..i + 1][..i] == due[..i];
  }

  /** Each finished round with a winner pays that proposal's author once, and nobody else is paid. */
  lemma {:induction false} PrizesAre(due: seq<nat>, top: nat -> Option<nat>, failing: set<nat>,
          proposals: map<nat, Proposal>)
          returns (at: seq<nat>)
    requires forall i :: 0 <= i < |due| && top(due[i]).Some? ==> top(due[i]).value in proposals
    ensures var prizes := Prizes(due, top, failing, proposals);
            && |at| == |prizes|
            && (forall k :: 0 <= k < |at| ==> at[k] < |due| && top(due[at[k]]).Some?
                                              && prizes[k] == proposals[top(due[at[k]]).value].author)
            && (forall k, l :: 0 <= k < l < |at| ==> at[k] < at[l])
            && (forall i :: i in at <==> 0 <= i < |due| && due[i] !in failing && top(due[i]).Some?)
  {
    if |due| == 0 {
      at := [];
    } else {
      at := PrizesAre(due[..|due| - 1], top, failing, proposals);
      var r := due[|due| - 1];
      if r !in failing && top(r).Some? { at := at + [|due| - 1]; }
    }
  }

  /** A due round after the run. */
  function DueRound(round: nat, top: nat -> Option<nat>, failing: set<nat>): Round {
    if round in failing then Round(Active, None) else Round(Finished, top(round))
  }

  lemma DueRoundIs(round: nat, top: nat -> Option<nat>, failing: set<nat>)
    ensures DueRound(round, top, failing) == if round in failing then Round(Active, None)
            else Round(Finished, top(round))
  {}

  /** The best proposal leads as long as votes and proposals stay as they are. */
  lemma TopLeads(db: Db, after: Db, round: nat, top: Option<nat>)
    requires IsTop(db, round, top) && after.votes == db.votes && after.proposals == db.proposals
    ensures Leads(after, round, top)
  {
    assert forall p :: InRound(after, p, round) <==> InRound(db, p, round);
  }

  lemma LeadsIs(db: Db, round: nat)
    requires round in db.rounds && Leads(db, round, db.rounds[round].winner)
    ensures WinnerLeads(db, round)
  {}

  lemma FinishIs(db: Db, round: nat, top: Option<nat>, next: nat)
    requires top.Some? ==> top.value in db.proposals
    ensures var after := Finish(db, round, top, next);
            && after.rounds == db.rounds[round := Round(Finished, top)][next := Round(Active, None)]
            && after.votes == db.votes && after.proposals == db.proposals && after.rewards == db.rewards
            && after.prizes == db.prizes + if top.Some? then [db.proposals[top.value].author] else []
  {}

  function ActiveRounds(db: Db): set<nat> {
    set r | r in db.rounds && db.rounds[r].roundStatus == Active
  }

  /** Finishing an active round keeps the number of active rounds; finishing it again adds one. */
  lemma FinishCountsRounds(db: Db, round: nat, top: Option<nat>, next: nat)
    requires round in db.rounds && next !in db.rounds && (top.Some? ==> top.value in db.proposals)
    ensures |ActiveRounds(Finish(db, round, top, next))|
            == |ActiveRounds(db)| + if db.rounds[round].roundStatus == Active then 0 else 1
  {
    var active := ActiveRounds(db);
    ActiveAfterFinish(db, round, top, next);
    assert next !in active;
    if db.rounds[round].roundStatus == Active {
      OneForAnother(active, round, next);
    } else {
      assert active - {round} == active;
    }
  }

  lemma ActiveAfterFinish(db: Db, round: nat, top: Option<nat>, next: nat)
    requires round in db.rounds && next !in db.rounds && (top.Some? ==> top.value in db.proposals)
    ensures ActiveRounds(Finish(db, round, top, next)) == ActiveRounds(db) - {round} + {next}
  {
    var rounds := Finish(db, round, top, next).rounds;
    forall r ensures r in rounds && rounds[r].roundStatus == Active <==> r in ActiveRounds(db) - {round} + {next} {}
  }

  lemma OneForAnother(s: set<nat>, x: nat, y: nat)
    requires x in s && y !in s
    ensures |s - {x} + {y}| == |s|
  {}

  // ---------------------------------------------------------------- what a vote does to the tallies

  /** The votes' effect on the tallies: the written type replaces the old one of the row, if any. */
  lemma {:induction false} TallyOfUpdate(votes: seq<Vote>, k: nat, voteType: int, proposal: nat)
    requires k < |votes|
    ensures Tally(votes[k := votes[k].(voteType := voteType)], proposal)
            == if votes[k].proposal == proposal then Tally(votes, proposal) - votes[k].voteType + voteType
              else Tally(votes, proposal)
  {
    var after := votes[k := votes[k].(voteType := voteType)];
    if k < |votes| - 1 {
      TallyOfUpdate(votes[..|votes| - 1], k, voteType, proposal);
      assert after[..|votes| - 1] == votes[..|votes| - 1][k := votes[k].(voteType := voteType)];
    } else {
      assert after[..|votes| - 1] == votes[..|votes| - 1];
    }
  }

  lemma TallyOfInsert(votes: seq<Vote>, v: Vote, proposal: nat)
    ensures Tally(votes + [v], proposal) == if v.proposal == proposal then Tally(votes, proposal) + v.voteType
            else Tally(votes, proposal)
  {
    assert (votes + [v])[..|votes|] == votes;
  }

  /** One undisturbed vote. */
  function Cast(db: Db, user: nat, proposal: nat, voteType: int, awarded: bool): Db {
    match CheckVote(db, user, proposal, voteType)
    case Refused(_) => db
    case Allowed(row, written) => WriteVote(db, user, proposal, row, written, awarded)
  }

  /** What a user's vote counts for a proposal. */
  function Standing(votes: seq<Vote>, user: nat, proposal: nat): int {
    if FindVote(votes, user, proposal).Some? then votes[FindVote(votes, user, proposal).value].voteType else 0
  }

  lemma {:induction false} FindAfterUpdate(votes: seq<Vote>, k: nat, voteType: int, user: nat, proposal: nat)
    requires k < |votes|
    ensures FindVote(votes[k := votes[k].(voteType := voteType)], user, proposal) == FindVote(votes, user, proposal)
  {
    var after := votes[k := votes[k].(voteType := voteType)];
    if k < |votes| - 1 {
      FindAfterUpdate(votes[..|votes| - 1], k, voteType, user, proposal);
      assert after[..|votes| - 1] == votes[..|votes| - 1][k := votes[k].(voteType := voteType)];
    } else {
      assert after[..|votes| - 1] == votes[..|votes| - 1];
    }
  }

  /** A vote replaces the user's standing vote, in the tally too; the same vote again takes it back, and
      a third time casts it again. */
  lemma VoteReplacesAndToggles(db: Db, user: nat, proposal: nat, voteType: int, awarded: bool)
    requires CheckVote(db, user, proposal, voteType).Allowed?
    ensures var once := Cast(db, user, proposal, voteType, awarded);
            && Standing(once.votes, user, proposal)
               == (if FindVote(db.votes, user, proposal).Some? && Standing(db.votes, user, proposal) == voteType
                 then 0 else voteType)
            && Tally(once.votes, proposal)
               == Tally(db.votes, proposal) - Standing(db.votes, user, proposal) + Standing(once.votes, user, proposal)
            && CheckVote(once, user, proposal, voteType).Allowed? && FindVote(once.votes, user, proposal).Some?
  {
    var row := FindVote(db.votes, user, proposal);
    var written := CheckVote(db, user, proposal, voteType).voteType;
    if row.Some? {
      FindAfterUpdate(db.votes, row.value, written, user, proposal);
      TallyOfUpdate(db.votes, row.value, written, proposal);
    } else {
      TallyOfInsert(db.votes, Vote(user, proposal, written), proposal);
    }
  }
}

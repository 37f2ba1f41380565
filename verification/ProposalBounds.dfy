/**
 How far the votes that are under way can still move a proposal's tally. Every user's vote on a proposal
 moves on its own, so the largest and the smallest tally are sums over the users, and both are reached.
 */
module ProposalBounds {
  import opened Option
  import opened PendingVotes
  import opened ProposalRounds
  import opened Proposals
  import opened Sums

  // ---------------------------------------------------------------- one user's vote in a state

  predicate IsVoteHeld(h: Held) {
    h.HeldRequest? || h.HeldVote?
  }

  predicate IsFor(h: Held, user: nat, p: nat) {
    IsVoteHeld(h) && h.user == user && h.proposal == p
  }

  function PendingOf(h: Held): Pending
    requires IsVoteHeld(h)
  {
    match h
    case HeldRequest(_, _, v) => Request(v)
    case HeldVote(_, _, row, v) => if row.Some? then Update(v) else Insert(v)
  }

  function RowType(votes: seq<Vote>, user: nat, p: nat): Option<int> {
    var row := FindVote(votes, user, p);
    if row.Some? then Some(votes[row.value].voteType) else None
  }

  function HeldFor(held: map<nat, Held>, user: nat, p: nat): map<nat, Pending> {
    map i | i in held && IsFor(held[i], user, p) :: PendingOf(held[i])
  }

  /** The user's vote on the proposal, with what the user has under way for it. */
  function OwnOf(s: State, user: nat, p: nat): Own {
    Own(RowType(s.db.votes, user, p), HeldFor(s.held, user, p))
  }

  lemma OwnIsTyped(s: State, u: nat, p: nat)
    requires Inv(s)
    ensures Typed(OwnOf(s, u, p)) && Value(OwnOf(s, u, p)) == Standing(s.db.votes, u, p)
  {}

  lemma FindAfterInsert(votes: seq<Vote>, v: Vote, u: nat, p: nat)
    ensures FindVote(votes + [v], u, p) == if IsVoteOf(v, u, p) then Some(|votes|) else FindVote(votes, u, p)
  {
    assert (votes + [v])[..|votes|] == votes;
  }

  lemma FoundIsOnly(votes: seq<Vote>, k: nat, user: nat, proposal: nat)
    requires OneVoteEach(votes) && k < |votes| && IsVoteOf(votes[k], user, proposal)
    ensures FindVote(votes, user, proposal) == Some(k)
  {
    FindIsSome(votes, k);
  }

  lemma RowAfterWrite(db: Db, user: nat, proposal: nat, row: Option<nat>, voteType: int, awarded: bool, u: nat, p: nat)
    requires OneVoteEach(db.votes) && Wellformed(db, HeldVote(user, proposal, row, voteType))
    ensures var before, after := db.votes, WriteVote(db, user, proposal, row, voteType, awarded).votes;
            RowType(after, u, p)
            == if u == user && p == proposal && (row.Some? || RowType(before, u, p).None?) then Some(voteType)
               else RowType(before, u, p)
  {
    hide FindVote;
    if row.Some? {
      FindAfterUpdate(db.votes, row.value, voteType, u, p);
      FoundIsOnly(db.votes, row.value, user, proposal);
    } else {
      FindAfterInsert(db.votes, Vote(user, proposal, voteType), u, p);
    }
  }

  lemma WriteIsTurn(s: State, i: nat, id: nat, awarded: bool, u: nat, p: nat)
    requires Inv(s) && i in s.held && s.held[i].HeldVote?
    ensures OwnOf(Next(s, WriteHeld(i, id, awarded)), u, p)
            == if IsFor(s.held[i], u, p) then Turn(OwnOf(s, u, p), i) else OwnOf(s, u, p)
  {
    hide FindVote;
    var h := s.held[i];
    RowAfterWrite(s.db, h.user, h.proposal, h.row, h.voteType, awarded, u, p);
    assert HeldFor(s.held - {i}, u, p) == HeldFor(s.held, u, p) - {i};
  }

  lemma LookIsTurn(s: State, i: nat, u: nat, p: nat)
    requires Inv(s) && i in s.held && s.held[i].HeldRequest?
    ensures OwnOf(Next(s, FindRow(i)), u, p)
            == if IsFor(s.held[i], u, p) then Turn(OwnOf(s, u, p), i) else OwnOf(s, u, p)
  {
    hide FindVote;
    var h := s.held[i];
    var found := Found(s.db, h);
    assert IsFor(found, u, p) <==> IsFor(h, u, p);
    if IsFor(h, u, p) {
      assert PendingOf(found) == Decide(RowType(s.db.votes, u, p), h.voteType);
      assert HeldFor(s.held[i := found], u, p) == HeldFor(s.held, u, p)[i := PendingOf(found)];
    } else {
      assert HeldFor(s.held[i := found], u, p) == HeldFor(s.held, u, p);
    }
  }

  /** Steps that neither look for a row, nor write, nor give up. */
  lemma OtherStepKeeps(s: State, step: Step, u: nat, p: nat)
    requires Inv(s) && p in s.db.proposals && !IsActive(s.db, s.db.proposals[p].round)
    requires !step.FindRow? && !step.WriteHeld? && !step.Abandon?
    ensures OwnOf(Next(s, step), u, p) == OwnOf(s, u, p)
  {
    hide FindVote, Tally;
    assert HeldFor(Next(s, step).held, u, p) == HeldFor(s.held, u, p);
  }

  lemma OtherWriteKeeps(s: State, i: nat, id: nat, awarded: bool, u: nat, p: nat)
    requires i in s.held && !s.held[i].HeldVote?
    ensures OwnOf(Next(s, WriteHeld(i, id, awarded)), u, p) == OwnOf(s, u, p)
  {
    hide FindVote, Tally;
    if Ready(s.held[i]) { assert HeldFor(s.held - {i}, u, p) == HeldFor(s.held, u, p); }
  }

  lemma AbandonIsLess(s: State, i: nat, u: nat, p: nat)
    ensures OwnOf(Next(s, Abandon(i)), u, p) == Less(OwnOf(s, u, p), i)
  {
    hide FindVote, Tally;
    assert HeldFor(s.held - {i}, u, p) == HeldFor(s.held, u, p) - {i};
  }

  /** In a round that is not active any more nothing new comes under way for a vote. */
  lemma StepFollows(s: State, step: Step, u: nat, p: nat)
    requires Inv(s) && p in s.db.proposals && !IsActive(s.db, s.db.proposals[p].round)
    ensures Follows(OwnOf(s, u, p), OwnOf(Next(s, step), u, p))
  {
    hide OwnOf, Turn, Inv;
    match step {
      case FindRow(i) => if i in s.held && s.held[i].HeldRequest? { LookIsTurn(s, i, u, p); }
      case WriteHeld(i, id, awarded) =>
        if i in s.held {
          if s.held[i].HeldVote? {
            WriteIsTurn(s, i, id, awarded, u, p);
          } else {
            OtherWriteKeeps(s, i, id, awarded, u, p);
          }
        }
      case Abandon(i) => AbandonIsLess(s, i, u, p);
      case _ => OtherStepKeeps(s, step, u, p);
    }
  }

  // ---------------------------------------------------------------- the bounds

  /** The most a user's vote can come to count, and the least. */
  ghost function Best(s: State, user: nat, p: nat): int {
    if Comes(OwnOf(s, user, p), 1) then 1 else if Comes(OwnOf(s, user, p), 0) then 0 else -1
  }

  ghost function Worst(s: State, user: nat, p: nat): int {
    if Comes(OwnOf(s, user, p), -1) then -1 else if Comes(OwnOf(s, user, p), 0) then 0 else 1
  }

  function VotersOf(votes: seq<Vote>, p: nat): set<nat> {
    set k | 0 <= k < |votes| && votes[k].proposal == p :: votes[k].user
  }

  /** The users whose vote on the proposal counts or can come to count. */
  ghost function Voters(s: State, p: nat): set<nat> {
    VotersOf(s.db.votes, p)
    + set i | i in s.held && IsVoteHeld(s.held[i]) && s.held[i].proposal == p :: s.held[i].user
  }

  ghost function Bests(s: State, p: nat): map<nat, int> {
    map u | u in Voters(s, p) :: Best(s, u, p)
  }

  ghost function Worsts(s: State, p: nat): map<nat, int> {
    map u | u in Voters(s, p) :: Worst(s, u, p)
  }

  /** The largest tally that what is held can bring the proposal to, and the smallest. */
  ghost function Highest(s: State, p: nat): int {
    SumOf(Bests(s, p))
  }

  ghost function Lowest(s: State, p: nat): int {
    SumOf(Worsts(s, p))
  }

  lemma FoundIsVoter(votes: seq<Vote>, u: nat, p: nat)
    ensures FindVote(votes, u, p).Some? ==> u in VotersOf(votes, p)
  {
    var found := FindVote(votes, u, p);
    if found.Some? { assert votes[found.value].user == u && votes[found.value].proposal == p; }
  }

  lemma NoVoter(s: State, u: nat, p: nat)
    requires u !in Voters(s, p)
    ensures OwnOf(s, u, p) == Own(None, map[])
  {
    FoundIsVoter(s.db.votes, u, p);
    forall i | i in s.held ensures !IsFor(s.held[i], u, p) {}
  }

  lemma BestIsReached(s: State, u: nat, p: nat)
    requires Inv(s)
    ensures Comes(OwnOf(s, u, p), Best(s, u, p)) && Comes(OwnOf(s, u, p), Worst(s, u, p))
    ensures forall x :: Comes(OwnOf(s, u, p), x) ==> Worst(s, u, p) <= x <= Best(s, u, p)
    ensures Worst(s, u, p) <= Standing(s.db.votes, u, p) <= Best(s, u, p)
  {
    hide Comes, OwnOf, Standing;
    var o := OwnOf(s, u, p);
    OwnIsTyped(s, u, p);
    TurnsNone(o);
    forall x | Comes(o, x) ensures -1 <= x <= 1 { TypedComes(o, x); }
  }

  lemma BestAt(s: State, u: nat, p: nat)
    ensures At(Bests(s, p), u) == Best(s, u, p) && At(Worsts(s, p), u) == Worst(s, u, p)
  {
    if u !in Voters(s, p) {
      NoVoter(s, u, p);
      TurnsNone(Own(None, map[]));
      forall x | Comes(OwnOf(s, u, p), x) ensures x == 0 { ComesExactlyWhen(OwnOf(s, u, p), x); }
    }
  }

  // ---------------------------------------------------------------- tallies are sums

  function Standings(votes: seq<Vote>, p: nat): map<nat, int> {
    map u | u in VotersOf(votes, p) :: Standing(votes, u, p)
  }

  lemma StandingAt(votes: seq<Vote>, u: nat, p: nat)
    ensures At(Standings(votes, p), u) == Standing(votes, u, p)
  {
    FoundIsVoter(votes, u, p);
  }

  /** A tally is the sum of the users' standings. */
  lemma {:induction false} TallyIsSum(votes: seq<Vote>, p: nat)
    requires OneVoteEach(votes)
    ensures Tally(votes, p) == SumOf(Standings(votes, p))
  {
    if |votes| == 0 {
      assert Standings(votes, p) == map[];
    } else {
      var init, last := votes[..|votes| - 1], votes[|votes| - 1];
      TallyIsSum(init, p);
      StandingsOfMore(votes, p);
      if last.proposal == p { SumWithout(Standings(votes, p), last.user); }
    }
  }

  lemma StandingsOfMore(votes: seq<Vote>, p: nat)
    requires |votes| > 0 && OneVoteEach(votes)
    ensures var init, last := votes[..|votes| - 1], votes[|votes| - 1];
            if last.proposal == p
            then && last.user in Standings(votes, p) && Standings(votes, p)[last.user] == last.voteType
                 && Standings(votes, p) - {last.user} == Standings(init, p)
            else Standings(votes, p) == Standings(init, p)
  {
    var init, last := votes[..|votes| - 1], votes[|votes| - 1];
    VotersOfMore(init, last, p);
    assert votes == init + [last];
    if last.proposal == p {
      assert last.user !in VotersOf(init, p);
      assert last.user in VotersOf(votes, p);
    }
  }

  lemma VotersOfMore(votes: seq<Vote>, v: Vote, p: nat)
    ensures VotersOf(votes + [v], p) == VotersOf(votes, p) + if v.proposal == p then {v.user} else {}
  {
    forall u ensures u in VotersOf(votes + [v], p) <==> u in VotersOf(votes, p) || (v.proposal == p && u == v.user) {
      if u in VotersOf(votes, p) {
        var k :| 0 <= k < |votes| && votes[k].proposal == p && votes[k].user == u;
        assert (votes + [v])[k] == votes[k];
      }
      if v.proposal == p && u == v.user { assert (votes + [v])[|votes|] == v; }
    }
  }

  /** A tally in which every user's vote stands as the map says. */
  lemma TallyOf(s: State, p: nat, m: map<nat, int>)
    requires Inv(s) && forall u :: Standing(s.db.votes, u, p) == At(m, u)
    ensures Tally(s.db.votes, p) == SumOf(m)
  {
    TallyIsSum(s.db.votes, p);
    forall u ensures At(Standings(s.db.votes, p), u) == At(m, u) { StandingAt(s.db.votes, u, p); }
    SameSum(Standings(s.db.votes, p), m);
  }

  lemma TallyIsWithin(s: State, p: nat)
    requires Inv(s)
    ensures Lowest(s, p) <= Tally(s.db.votes, p) <= Highest(s, p)
  {
    hide Best, Worst, Standing;
    var standings := Standings(s.db.votes, p);
    TallyIsSum(s.db.votes, p);
    forall u ensures At(Worsts(s, p), u) <= At(standings, u) <= At(Bests(s, p), u) {
      BestIsReached(s, u, p);
      StandingAt(s.db.votes, u, p);
      BestAt(s, u, p);
    }
    SumAtMost(Worsts(s, p), standings);
    SumAtMost(standings, Bests(s, p));
  }

  /** Whatever comes in `t` comes in `s`, and then the bounds only get tighter. */
  ghost predicate Narrows(s: State, t: State, p: nat) {
    forall u, x :: Comes(OwnOf(t, u, p), x) ==> Comes(OwnOf(s, u, p), x)
  }

  lemma NarrowsBounds(s: State, t: State, p: nat)
    requires Inv(s) && Inv(t) && Narrows(s, t, p)
    ensures Highest(t, p) <= Highest(s, p) && Lowest(s, p) <= Lowest(t, p)
  {
    hide Best, Worst, Comes, OwnOf, Inv, Standing;
    forall u ensures At(Bests(t, p), u) <= At(Bests(s, p), u) && At(Worsts(s, p), u) <= At(Worsts(t, p), u) {
      BestAt(s, u, p);
      BestAt(t, u, p);
      BestIsReached(t, u, p);
      BestIsReached(s, u, p);
      assert Comes(OwnOf(s, u, p), Best(t, u, p)) && Comes(OwnOf(s, u, p), Worst(t, u, p));
    }
    SumAtMost(Bests(t, p), Bests(s, p));
    SumAtMost(Worsts(s, p), Worsts(t, p));
  }

  lemma StepNarrows(s: State, step: Step, p: nat)
    requires Inv(s) && p in s.db.proposals && !IsActive(s.db, s.db.proposals[p].round)
    ensures Narrows(s, Next(s, step), p)
  {
    hide Comes, Follows, OwnOf, Inv, Next;
    var t := Next(s, step);
    forall u, x | Comes(OwnOf(t, u, p), x) ensures Comes(OwnOf(s, u, p), x) {
      StepFollows(s, step, u, p);
      FollowsComes(OwnOf(s, u, p), OwnOf(t, u, p), x);
    }
  }

  lemma SameOwns(s: State, t: State, p: nat)
    requires forall u :: OwnOf(t, u, p) == OwnOf(s, u, p)
    ensures Highest(t, p) == Highest(s, p) && Lowest(t, p) == Lowest(s, p)
  {
    hide OwnOf, Comes, Bests, Worsts;
    forall u ensures At(Bests(t, p), u) == At(Bests(s, p), u) && At(Worsts(t, p), u) == At(Worsts(s, p), u) {
      BestAt(s, u, p);
      BestAt(t, u, p);
    }
    SameSum(Bests(t, p), Bests(s, p));
    SameSum(Worsts(t, p), Worsts(s, p));
  }

  // ---------------------------------------------------------------- the bounds are reached

  lemma {:induction false} AfterJoin(s: State, a: seq<Step>, b: seq<Step>)
    ensures After(s, a + b) == After(After(s, a), b)
  {
    if |b| == 0 {
      assert a + b == a;
    } else {
      AfterJoin(s, a, b[..|b| - 1]);
      assert (a + b)[..|a + b| - 1] == a + b[..|b| - 1] && (a + b)[|a + b| - 1] == b[|b| - 1];
    }
  }

  lemma AfterFirst(s: State, step: Step, rest: seq<Step>)
    ensures After(s, [step] + rest) == After(Next(s, step), rest)
  {
    AfterJoin(s, [step], rest);
    assert [step][..0] == [];
  }

  /** Only votes and what is held for votes differ. */
  ghost predicate OnlyVotes(s: State, t: State) {
    && t.db.rounds == s.db.rounds && t.db.proposals == s.db.proposals
    && (forall i :: i in s.held && !IsVoteHeld(s.held[i]) ==> i in t.held && t.held[i] == s.held[i])
    && (forall i :: i in t.held && !IsVoteHeld(t.held[i]) ==> i in s.held && s.held[i] == t.held[i])
  }

  /** One access of one vote, as a step. */
  function TurnStep(s: State, i: nat): Step {
    if i in s.held && s.held[i].HeldRequest? then FindRow(i) else WriteHeld(i, 0, false)
  }

  lemma OneTurn(s: State, i: nat, u: nat, p: nat)
    requires Inv(s) && i in OwnOf(s, u, p).pending
    ensures var t := Next(s, TurnStep(s, i));
            && Inv(t) && OnlyVotes(s, t) && OwnOf(t, u, p) == Turn(OwnOf(s, u, p), i)
            && forall v, q :: v != u || q != p ==> OwnOf(t, v, q) == OwnOf(s, v, q)
  {
    hide FindVote, OwnOf, Inv, Standing;
    OwnIs(s, u, p);
    var t := Next(s, TurnStep(s, i));
    NextKeeps(s, TurnStep(s, i));
    forall v, q ensures OwnOf(t, v, q) == if IsFor(s.held[i], v, q) then Turn(OwnOf(s, v, q), i) else OwnOf(s, v, q) {
      if s.held[i].HeldRequest? { LookIsTurn(s, i, v, q); } else { WriteIsTurn(s, i, 0, false, v, q); }
    }
  }

  lemma OwnIs(s: State, u: nat, p: nat)
    ensures OwnOf(s, u, p).pending == HeldFor(s.held, u, p)
  {}

  /** What comes for one vote comes in a run in which nothing else happens. */
  lemma {:induction false} Play(s: State, u: nat, p: nat, ks: seq<nat>) returns (steps: seq<Step>)
    requires Inv(s)
    ensures var t := After(s, steps);
            && Inv(t) && OnlyVotes(s, t) && OwnOf(t, u, p) == Turns(OwnOf(s, u, p), ks)
            && forall v, q :: v != u || q != p ==> OwnOf(t, v, q) == OwnOf(s, v, q)
    decreases |ks|
  {
    hide OwnOf, Inv, Next;
    if |ks| == 0 {
      steps := [];
    } else if ks[0] in OwnOf(s, u, p).pending {
      var step := TurnStep(s, ks[0]);
      OneTurn(s, ks[0], u, p);
      var rest := Play(Next(s, step), u, p, ks[1..]);
      AfterFirst(s, step, rest);
      steps := [step] + rest;
    } else {
      steps := Play(s, u, p, ks[1..]);
    }
  }

  /** Every vote on the proposal can come to `a` and from there to `b`. */
  ghost predicate CanMove(s: State, p: nat, a: map<nat, int>, b: map<nat, int>) {
    forall u :: ComesThen(OwnOf(s, u, p), At(a, u), At(b, u))
  }

  ghost predicate Moved(s: State, t: State, p: nat, users: set<nat>, a: map<nat, int>, b: map<nat, int>) {
    && Inv(t) && OnlyVotes(s, t)
    && (forall u :: u in users ==> Value(OwnOf(t, u, p)) == At(a, u) && Comes(OwnOf(t, u, p), At(b, u)))
    && (forall u :: u !in users ==> OwnOf(t, u, p) == OwnOf(s, u, p))
    && (forall u, q :: q != p ==> OwnOf(t, u, q) == OwnOf(s, u, q))
  }

  /** One user after the other. */
  lemma {:induction false} BringUsers(s: State, p: nat, users: set<nat>, a: map<nat, int>, b: map<nat, int>)
          returns (steps: seq<Step>)
    requires Inv(s) && CanMove(s, p, a, b)
    ensures Moved(s, After(s, steps), p, users, a, b)
    decreases |users|
  {
    hide OwnOf, Inv, Next, Value, Comes, Turns, OnlyVotes, After, At;
    if users == {} {
      steps := [];
      NoSteps(s);
    } else {
      var u :| u in users;
      var first := BringUsers(s, p, users - {u}, a, b);
      var t := After(s, first);
      assert ComesThen(OwnOf(s, u, p), At(a, u), At(b, u));
      var ks :| Value(Turns(OwnOf(s, u, p), ks)) == At(a, u) && Comes(Turns(OwnOf(s, u, p), ks), At(b, u));
      var rest := Play(t, u, p, ks);
      AfterJoin(s, first, rest);
      VotesAfterVotes(s, t, After(t, rest));
      steps := first + rest;
    }
  }

  lemma NoSteps(s: State)
    ensures After(s, []) == s && OnlyVotes(s, s)
  {}

  lemma VotesAfterVotes(s: State, t: State, v: State)
    requires OnlyVotes(s, t) && OnlyVotes(t, v)
    ensures OnlyVotes(s, v)
  {}

  /** A run brings every vote on the proposal to `a`, and leaves `b` within reach. */
  lemma Bring(s: State, p: nat, a: map<nat, int>, b: map<nat, int>) returns (steps: seq<Step>)
    requires Inv(s) && CanMove(s, p, a, b)
    ensures var t := After(s, steps);
            && Inv(t) && OnlyVotes(s, t) && Tally(t.db.votes, p) == SumOf(a)
            && (forall u :: Comes(OwnOf(t, u, p), At(b, u)))
            && (forall u, q :: q != p ==> OwnOf(t, u, q) == OwnOf(s, u, q))
  {
    hide OwnOf, Inv, Tally, Standing;
    steps := BringUsers(s, p, Voters(s, p), a, b);
    var t := After(s, steps);
    forall u ensures Value(OwnOf(t, u, p)) == At(a, u) && Comes(OwnOf(t, u, p), At(b, u)) {
      if u !in Voters(s, p) { NothingComes(s, u, p, At(a, u), At(b, u)); }
    }
    forall u ensures Standing(t.db.votes, u, p) == At(a, u) { OwnIsTyped(t, u, p); }
    TallyOf(t, p, a);
  }

  lemma NothingComes(s: State, u: nat, p: nat, x: int, y: int)
    requires u !in Voters(s, p) && ComesThen(OwnOf(s, u, p), x, y)
    ensures Value(OwnOf(s, u, p)) == x == 0 && Comes(OwnOf(s, u, p), y)
  {
    NoVoter(s, u, p);
    var o := Own(None, map[]);
    assert OwnOf(s, u, p) == o;
    var ks :| Value(Turns(o, ks)) == x && Comes(Turns(o, ks), y);
    ComesExactlyWhen(o, x);
    NoTurns(o, ks);
  }

  lemma {:induction false} NoTurns(o: Own, ks: seq<nat>)
    requires o.pending == map[]
    ensures Turns(o, ks) == o
    decreases |ks|
  {
    if |ks| == 0 {
    } else {
      NoTurns(o, ks[1..]);
    }
  }

  lemma SameTally(s: State, t: State, p: nat)
    requires Inv(s) && Inv(t) && forall u :: OwnOf(t, u, p) == OwnOf(s, u, p)
    ensures Tally(t.db.votes, p) == Tally(s.db.votes, p)
  {
    hide OwnOf, Inv, Tally, Standing;
    forall u ensures Standing(s.db.votes, u, p) == At(Standings(s.db.votes, p), u)
                     && Standing(t.db.votes, u, p) == At(Standings(s.db.votes, p), u)
    {
      StandingAt(s.db.votes, u, p);
      OwnIsTyped(s, u, p);
      OwnIsTyped(t, u, p);
    }
    TallyOf(s, p, Standings(s.db.votes, p));
    TallyOf(t, p, Standings(s.db.votes, p));
  }

  lemma CanBeBest(s: State, p: nat)
    requires Inv(s)
    ensures CanMove(s, p, Bests(s, p), Bests(s, p)) && CanMove(s, p, Worsts(s, p), Worsts(s, p))
  {
    hide OwnOf, Inv, Best, Worst, Standing, Comes, ComesThen;
    forall u
      ensures ComesThen(OwnOf(s, u, p), At(Bests(s, p), u), At(Bests(s, p), u))
      ensures ComesThen(OwnOf(s, u, p), At(Worsts(s, p), u), At(Worsts(s, p), u))
    {
      BestAt(s, u, p);
      BestIsReached(s, u, p);
      ThenNow(OwnOf(s, u, p), Best(s, u, p));
      ThenNow(OwnOf(s, u, p), Worst(s, u, p));
    }
  }

  /** What is held can really bring one proposal to its largest and another to its smallest tally. */
  lemma Overtakes(s: State, w: nat, p: nat) returns (steps: seq<Step>)
    requires Inv(s) && p != w
    ensures var t := After(s, steps);
            && Inv(t) && OnlyVotes(s, t)
            && Tally(t.db.votes, p) == Highest(s, p) && Tally(t.db.votes, w) == Lowest(s, w)
  {
    hide OwnOf, Inv, Tally, Comes, Bests, Worsts, CanMove;
    CanBeBest(s, p);
    var first := Bring(s, p, Bests(s, p), Bests(s, p));
    var t := After(s, first);
    CanBeBest(s, w);
    assert CanMove(t, w, Worsts(s, w), Worsts(s, w)) by { SameMoves(s, t, w, Worsts(s, w), Worsts(s, w)); }
    var rest := Bring(t, w, Worsts(s, w), Worsts(s, w));
    SameTally(t, After(t, rest), p);
    AfterJoin(s, first, rest);
    steps := first + rest;
  }

  lemma SameMoves(s: State, t: State, p: nat, a: map<nat, int>, b: map<nat, int>)
    requires CanMove(s, p, a, b) && forall u :: OwnOf(t, u, p) == OwnOf(s, u, p)
    ensures CanMove(t, p, a, b)
  {}
}

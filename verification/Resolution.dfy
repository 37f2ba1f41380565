/**
 The writers of a market's status and winner. Each of them reads the market's row, changes its copy
 and later writes the whole copy back; anything may happen in between. Sources: the voting, factory
 and market parsers, the two finalisers, the creation worker and the prediction set service.

 A transaction that rolls back writes nothing. Outcome ids are never used twice and an outcome keeps
 its index; the row's winner is a foreign key, so its outcome cannot be deleted and an outcome that
 is gone cannot be written. The chain's winner index never changes.
 */
module Resolution {
  import opened Markets
  import opened Option

  datatype Row = Row(setStatus: SetStatus, winner: Option<nat>)

  datatype Writer =
    | VoteFinalise      // voting parser: the oracle has decided
    | ForceVoting       // voting parser: voting was forced
    | AutoFinalise      // automatic finaliser: the oracle has decided
    | AutoVoting        // automatic finaliser: no consensus
    | AutoError         // automatic finaliser: attestation or proof missing
    | ManualVoting      // manual finaliser
    | Activate          // market parser: the market is funded
    | MarkFunding       // factory parser: the market contract exists
    | Process           // service: send to the chain
    | CreateError       // creation worker: sending failed
    | Edit              // service: new data, sources and outcomes
    | Delete            // service: mark deleted
    | Hide              // service: show or hide

  predicate Finaliser(w: Writer) {
    w == VoteFinalise || w == AutoFinalise
  }

  /** What the writer demands of the row it read. */
  predicate Guard(w: Writer, row: Row) {
    match w
    case VoteFinalise | ForceVoting | MarkFunding | Hide => true
    case AutoFinalise | AutoVoting | AutoError | ManualVoting => row.setStatus == Active
    case Activate => row.setStatus != Active
    case Process | Edit | Delete => row.setStatus == Initialized || row.setStatus == Error
    case CreateError => row.setStatus == Pending || row.setStatus == Error
  }

  /** The copy as it is written back; finalisers have found the outcome they write. */
  function Written(w: Writer, copy: Row, outcome: Option<nat>): Row {
    match w
    case VoteFinalise | AutoFinalise => Row(Finalized, outcome)
    case ForceVoting | AutoVoting | ManualVoting => copy.(setStatus := Voting)
    case AutoError | CreateError => copy.(setStatus := Error)
    case Activate => copy.(setStatus := Active)
    case MarkFunding => copy.(setStatus := Funding)
    case Process => copy.(setStatus := Pending)
    case Edit | Delete | Hide => copy
  }

  // ---------------------------------------------------------------- every interleaving

  datatype Held = Held(writer: Writer, copy: Row, outcome: Option<nat>)

  /** `indexOf` remembers every outcome the market ever had, `live` those in the table now, `held` the
      copies of the writers that are between their read and their write. */
  datatype State = State(row: Row, indexOf: map<nat, nat>, live: set<nat>, held: map<nat, Held>)

  datatype Step =
    | Read(i: nat, writer: Writer)
    | FindOutcome(i: nat, outcome: nat)
    | Write(i: nat)
    | EditMarket(i: nat, outcomes: map<nat, nat>, supplied: Option<SetStatus>)
    | Abandon(i: nat)

  /** A foreign key to an outcome that is there, or none. */
  predicate Refers(winner: Option<nat>, live: set<nat>) {
    winner.Some? ==> winner.value in live
  }

  /** An edit deletes the market's outcomes, which the foreign key refuses once one of them has won, and
      then writes its copy, which must not name a deleted one. */
  predicate EditCommits(s: State, i: nat) {
    i in s.held && s.held[i].writer == Edit && s.row.winner.None? && s.held[i].copy.winner.None?
  }

  /** The user's data may carry a status; by default it carries "initialized". */
  function Edited(copy: Row, supplied: Option<SetStatus>): Row {
    if supplied.Some? then copy.(setStatus := supplied.value) else copy
  }

  /** One step; `winnerIndex` is the chain's answer. A step that is not possible changes nothing, and a
      write that the foreign key refuses only ends its writer. */
  function Next(s: State, winnerIndex: nat, step: Step): State {
    match step
    case Read(i, w) =>
      if i !in s.held && Guard(w, s.row) then s.(held := s.held[i := Held(w, s.row, None)]) else s
    case FindOutcome(i, o) =>
      if i in s.held && Finaliser(s.held[i].writer) && o in s.live && o in s.indexOf && s.indexOf[o] == winnerIndex
      then s.(held := s.held[i := s.held[i].(outcome := Some(o))]) else s
    case Write(i) =>
      if i in s.held && s.held[i].writer != Edit && (Finaliser(s.held[i].writer) ==> s.held[i].outcome.Some?) then
        var row := Written(s.held[i].writer, s.held[i].copy, s.held[i].outcome);
        if Refers(row.winner, s.live) then s.(row := row, held := s.held - {i}) else s.(held := s.held - {i})
      else s
    case EditMarket(i, outcomes, supplied) =>
      if i in s.held && s.held[i].writer == Edit && outcomes.Keys !! s.indexOf.Keys then
        if EditCommits(s, i)
        then State(Edited(s.held[i].copy, supplied), s.indexOf + outcomes, outcomes.Keys, s.held - {i})
        else s.(held := s.held - {i})
      else s
    case Abandon(i) => s.(held := s.held - {i})
  }

  function After(s: State, winnerIndex: nat, steps: seq<Step>): State {
    if |steps| == 0 then s
    else Next(After(s, winnerIndex, steps[..|steps| - 1]), winnerIndex, steps[|steps| - 1])
  }

  /** Winner unset, or an outcome of this market at the chain's winner index. */
  predicate Decided(winner: Option<nat>, indexOf: map<nat, nat>, winnerIndex: nat) {
    winner.Some? ==> winner.value in indexOf && indexOf[winner.value] == winnerIndex
  }

  predicate Sound(row: Row, indexOf: map<nat, nat>, winnerIndex: nat) {
    Decided(row.winner, indexOf, winnerIndex) && (row.setStatus == Finalized ==> row.winner.Some?)
  }

  ghost predicate Inv(s: State, winnerIndex: nat) {
    && Sound(s.row, s.indexOf, winnerIndex)
    && Refers(s.row.winner, s.live)
    && s.live <= s.indexOf.Keys
    && forall i :: i in s.held ==>
         Sound(s.held[i].copy, s.indexOf, winnerIndex) && Decided(s.held[i].outcome, s.indexOf, winnerIndex)
  }

  /** The one step that breaks the invariant: an edit that goes through with "finalised" supplied. */
  predicate SuppliesFinalized(s: State, step: Step) {
    && step.EditMarket? && step.supplied == Some(Finalized)
    && EditCommits(s, step.i) && step.outcomes.Keys !! s.indexOf.Keys
  }

  lemma NextKeepsExactlyWhen(s: State, winnerIndex: nat, step: Step)
    requires Inv(s, winnerIndex)
    ensures Inv(Next(s, winnerIndex, step), winnerIndex) <==> !SuppliesFinalized(s, step)
  {}

  predicate NoneSuppliesFinalized(steps: seq<Step>) {
    forall k :: 0 <= k < |steps| && steps[k].EditMarket? ==> steps[k].supplied != Some(Finalized)
  }

  /** Under every interleaving of the writers the winner is unset or the outcome at the chain's winner
      index, still in the table, and a finalised market has one, as long as no user's data carries the
      status "finalised". */
  lemma {:induction false} WinnerIsTheChains(s: State, winnerIndex: nat, steps: seq<Step>)
    requires Inv(s, winnerIndex) && NoneSuppliesFinalized(steps)
    ensures Inv(After(s, winnerIndex, steps), winnerIndex)
  {
    if |steps| == 0 {
    } else {
      WinnerIsTheChains(s, winnerIndex, steps[..|steps| - 1]);
      NextKeepsExactlyWhen(After(s, winnerIndex, steps[..|steps| - 1]), winnerIndex, steps[|steps| - 1]);
    }
  }

  /** Why the condition is needed: from every sound state in which an edit is held and no winner is known,
      one supplied status leaves the market finalised without a winner. */
  lemma FinalizedWithoutWinner(s: State, winnerIndex: nat, i: nat)
    requires Inv(s, winnerIndex) && EditCommits(s, i)
    ensures var t := After(s, winnerIndex, [EditMarket(i, map[], Some(Finalized))]);
            t.row.setStatus == Finalized && t.row.winner.None? && !Inv(t, winnerIndex)
  {
    OneStep(s, winnerIndex, EditMarket(i, map[], Some(Finalized)));
  }

  // ---------------------------------------------------------------- can a decision be undone?

  /** A copy taken before the winner was known, in the hands of a writer that will write it back. */
  predicate Stale(h: Held) {
    h.copy.winner.None? && !Finaliser(h.writer) && h.writer != Edit
  }

  ghost predicate NoStaleCopy(s: State) {
    forall i :: i in s.held ==> !Stale(s.held[i])
  }

  ghost predicate KeepsWinner(s: State, winnerIndex: nat) {
    forall steps :: After(s, winnerIndex, steps).row.winner.Some?
  }

  lemma {:induction false} NoStaleCopyKeeps(s: State, winnerIndex: nat, steps: seq<Step>)
    requires s.row.winner.Some? && NoStaleCopy(s)
    ensures var t := After(s, winnerIndex, steps); t.row.winner.Some? && NoStaleCopy(t)
  {
    if |steps| == 0 {
    } else {
      NoStaleCopyKeeps(s, winnerIndex, steps[..|steps| - 1]);
      NoStaleCopyStep(After(s, winnerIndex, steps[..|steps| - 1]), winnerIndex, steps[|steps| - 1]);
    }
  }

  lemma NoStaleCopyStep(s: State, winnerIndex: nat, step: Step)
    requires s.row.winner.Some? && NoStaleCopy(s)
    ensures var t := Next(s, winnerIndex, step); t.row.winner.Some? && NoStaleCopy(t)
  {}

  lemma OneStep(s: State, winnerIndex: nat, step: Step)
    ensures After(s, winnerIndex, [step]) == Next(s, winnerIndex, step)
  {
    assert [step][..0] == [];
  }

  lemma TwoSteps(s: State, winnerIndex: nat, first: Step, second: Step)
    ensures After(s, winnerIndex, [first, second]) == Next(Next(s, winnerIndex, first), winnerIndex, second)
  {
    assert [first, second][..1] == [first];
    OneStep(s, winnerIndex, first);
  }

  /** A recorded winner survives every continuation exactly when no writer still holds a copy from
      before it was recorded. */
  lemma WinnerSurvivesExactlyWhen(s: State, winnerIndex: nat)
    requires s.row.winner.Some?
    ensures KeepsWinner(s, winnerIndex) <==> NoStaleCopy(s)
  {
    if NoStaleCopy(s) {
      forall steps ensures After(s, winnerIndex, steps).row.winner.Some? { NoStaleCopyKeeps(s, winnerIndex, steps); }
    } else {
      var i :| i in s.held && Stale(s.held[i]);
      OneStep(s, winnerIndex, Write(i));
      assert After(s, winnerIndex, [Write(i)]).row.winner.None?;
    }
  }

  /** The writers that can read a finalised market and then write another status. */
  predicate Reopening(w: Writer) {
    w == ForceVoting || w == Activate || w == MarkFunding
  }

  ghost predicate StaysFinalized(s: State, winnerIndex: nat) {
    forall steps: seq<Step> :: (forall k :: 0 <= k < |steps| && steps[k].Read? ==> !Reopening(steps[k].writer)) ==>
                      After(s, winnerIndex, steps).row.setStatus == Finalized
  }

  /** What a held copy can still write: a finaliser finalises, an edit is refused once there is a
      winner, and the foreign key refuses a winner that is gone. */
  predicate Harmless(h: Held, live: set<nat>) {
    || Finaliser(h.writer)
    || h.writer == Edit
    || Written(h.writer, h.copy, h.outcome).setStatus == Finalized
    || !Refers(h.copy.winner, live)
  }

  ghost predicate AllHarmless(s: State) {
    forall i :: i in s.held ==> Harmless(s.held[i], s.live)
  }

  ghost predicate Settled(s: State) {
    s.row.setStatus == Finalized && s.row.winner.Some? && Refers(s.row.winner, s.live) && AllHarmless(s)
  }

  lemma SettledStep(s: State, winnerIndex: nat, step: Step)
    requires Settled(s) && (step.Read? ==> !Reopening(step.writer))
    requires forall i :: i in s.held && s.held[i].copy.setStatus == Finalized ==> s.held[i].copy.winner.Some?
    ensures var t := Next(s, winnerIndex, step);
            && Settled(t) && t.live == s.live
            && forall i :: i in t.held && t.held[i].copy.setStatus == Finalized ==> t.held[i].copy.winner.Some?
  {}

  lemma {:induction false} SettledRun(s: State, winnerIndex: nat, steps: seq<Step>)
    requires Settled(s) && forall k :: 0 <= k < |steps| && steps[k].Read? ==> !Reopening(steps[k].writer)
    requires forall i :: i in s.held && s.held[i].copy.setStatus == Finalized ==> s.held[i].copy.winner.Some?
    ensures var t := After(s, winnerIndex, steps);
            && Settled(t) && t.live == s.live
            && forall i :: i in t.held && t.held[i].copy.setStatus == Finalized ==> t.held[i].copy.winner.Some?
  {
    if |steps| == 0 {
    } else {
      SettledRun(s, winnerIndex, steps[..|steps| - 1]);
      SettledStep(After(s, winnerIndex, steps[..|steps| - 1]), winnerIndex, steps[|steps| - 1]);
    }
  }

  /** A finalised market stays finalised whatever happens, as long as none of the three reopening
      writers starts, exactly when no copy that is held can still write another status. */
  lemma StaysFinalizedExactlyWhen(s: State, winnerIndex: nat)
    requires Inv(s, winnerIndex) && s.row.setStatus == Finalized
    ensures StaysFinalized(s, winnerIndex) <==> AllHarmless(s)
  {
    if AllHarmless(s) {
      forall steps: seq<Step> | forall k :: 0 <= k < |steps| && steps[k].Read? ==> !Reopening(steps[k].writer)
        ensures After(s, winnerIndex, steps).row.setStatus == Finalized
      {
        SettledRun(s, winnerIndex, steps);
      }
    } else {
      var i :| i in s.held && !Harmless(s.held[i], s.live);
      OneStep(s, winnerIndex, Write(i));
      assert After(s, winnerIndex, [Write(i)]).row.setStatus != Finalized;
    }
  }

  /** Run alone on a finalised market, a writer leaves it finalised exactly when it is not one of the
      three: "finalised" is not absorbing. The winner it found stays recorded. */
  lemma ReopenedExactlyBy(s: State, winnerIndex: nat, i: nat, w: Writer)
    requires Inv(s, winnerIndex) && s.row.setStatus == Finalized && i !in s.held && !Finaliser(w)
    ensures var t := After(s, winnerIndex, [Read(i, w), Write(i)]);
            (t.row.setStatus != Finalized <==> Reopening(w)) && t.row.winner == s.row.winner
  {
    TwoSteps(s, winnerIndex, Read(i, w), Write(i));
  }

  /** Every writer alone, on a row that it accepts: the status it leaves, and whether the winner stays. */
  lemma WriterAlone(s: State, winnerIndex: nat, i: nat, w: Writer)
    requires i !in s.held && Guard(w, s.row) && !Finaliser(w) && w != Edit && Refers(s.row.winner, s.live)
    ensures var t := After(s, winnerIndex, [Read(i, w), Write(i)]);
            var row := t.row;
            && row.winner == s.row.winner && t == s.(row := row)
            && (w == ForceVoting || w == AutoVoting || w == ManualVoting ==> row.setStatus == Voting)
            && (w == AutoError || w == CreateError ==> row.setStatus == Error)
            && (w == Activate ==> row.setStatus == Active)
            && (w == MarkFunding ==> row.setStatus == Funding)
            && (w == Process ==> row.setStatus == Pending)
            && (w == Delete || w == Hide ==> row.setStatus == s.row.setStatus)
  {
    TwoSteps(s, winnerIndex, Read(i, w), Write(i));
    assert s.held[i := Held(w, s.row, None)] - {i} == s.held;
  }

  /** Which rows each writer accepts, by status; a row that it does not accept leaves it without a copy. */
  lemma ReadsExactlyWhen(s: State, winnerIndex: nat, i: nat, w: Writer)
    requires i !in s.held
    ensures var t, status := Next(s, winnerIndex, Read(i, w)), s.row.setStatus;
            && t.row == s.row
            && (i in t.held <==>
                  match w
                  case VoteFinalise | ForceVoting | MarkFunding | Hide => true
                  case AutoFinalise | AutoVoting | AutoError | ManualVoting => status == Active
                  case Activate => status != Active
                  case Process | Edit | Delete => status == Initialized || status == Error
                  case CreateError => status == Pending || status == Error)
            && (i in t.held ==> t.held[i].writer == w && t.held[i].copy == s.row)
  {}

  /** The life of a market without incident: sent to the chain, created there, funded, decided. */
  lemma UndisturbedLife(s: State, winnerIndex: nat, outcome: nat)
    requires s.row == Row(Initialized, None) && s.held == map[] && outcome in s.live
    requires outcome in s.indexOf && s.indexOf[outcome] == winnerIndex
    ensures var sent := After(s, winnerIndex, [Read(0, Process), Write(0)]);
            var created := After(sent, winnerIndex, [Read(0, MarkFunding), Write(0)]);
            var funded := After(created, winnerIndex, [Read(0, Activate), Write(0)]);
            var decided := After(funded, winnerIndex, [Read(0, AutoFinalise), FindOutcome(0, outcome), Write(0)]);
            && sent.row == Row(Pending, None) && created.row == Row(Funding, None)
            && funded.row == Row(Active, None) && decided.row == Row(Finalized, Some(outcome))
  {
    hide After, Next;
    WriterAlone(s, winnerIndex, 0, Process);
    var sent := After(s, winnerIndex, [Read(0, Process), Write(0)]);
    WriterAlone(sent, winnerIndex, 0, MarkFunding);
    var created := After(sent, winnerIndex, [Read(0, MarkFunding), Write(0)]);
    WriterAlone(created, winnerIndex, 0, Activate);
    var funded := After(created, winnerIndex, [Read(0, Activate), Write(0)]);
    Decides(funded, winnerIndex, outcome);
  }

  lemma Decides(s: State, winnerIndex: nat, outcome: nat)
    requires s.row.setStatus == Active && s.held == map[] && outcome in s.live
    requires outcome in s.indexOf && s.indexOf[outcome] == winnerIndex
    ensures After(s, winnerIndex, [Read(0, AutoFinalise), FindOutcome(0, outcome), Write(0)]).row
            == Row(Finalized, Some(outcome))
  {
    ThreeSteps(s, winnerIndex, Read(0, AutoFinalise), FindOutcome(0, outcome), Write(0));
  }

  lemma ThreeSteps(s: State, winnerIndex: nat, a: Step, b: Step, c: Step)
    ensures After(s, winnerIndex, [a, b, c]) == Next(Next(Next(s, winnerIndex, a), winnerIndex, b), winnerIndex, c)
  {
    assert [a, b, c][..2] == [a, b];
    TwoSteps(s, winnerIndex, a, b);
  }

  /** A decision lost: an administrator opens the market to hide it, the oracle's decision is
      recorded, the administrator's copy is written back. */
  lemma LostDecision(s: State, winnerIndex: nat, outcome: nat)
    requires s.row == Row(Voting, None) && s.held == map[] && outcome in s.live
    requires outcome in s.indexOf && s.indexOf[outcome] == winnerIndex
    ensures var t := After(s, winnerIndex, [Read(0, Hide), Read(1, VoteFinalise), FindOutcome(1, outcome), Write(1)]);
            t.row == Row(Finalized, Some(outcome)) && After(t, winnerIndex, [Write(0)]).row == Row(Voting, None)
  {
    hide After;
    FourSteps(s, winnerIndex, Read(0, Hide), Read(1, VoteFinalise), FindOutcome(1, outcome), Write(1));
    OneStep(After(s, winnerIndex, [Read(0, Hide), Read(1, VoteFinalise), FindOutcome(1, outcome), Write(1)]),
      winnerIndex, Write(0));
  }

  lemma FourSteps(s: State, winnerIndex: nat, a: Step, b: Step, c: Step, d: Step)
    ensures After(s, winnerIndex, [a, b, c, d])
            == Next(Next(Next(Next(s, winnerIndex, a), winnerIndex, b), winnerIndex, c), winnerIndex, d)
  {
    assert [a, b, c, d][..3] == [a, b, c] && [a, b, c][..2] == [a, b];
    TwoSteps(s, winnerIndex, a, b);
  }
}

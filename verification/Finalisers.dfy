/**
 The two finalisers, src/workers/flare/finalize-automatic-prediction-sets.worker.ts and
 src/workers/finalize-manual-prediction-sets.worker.ts. The rows they work on were selected before the
 loop; a market's row may have changed by the time its copy is written back.
 */
module Finalisers {
  import opened Option
  import opened Attestations
  import M = Markets
  import R = Resolution

  /** The chain's answer to a finalise call. */
  datatype ChainResult = Decided(winnerIdx: nat) | ToVote | Otherwise | CallRaised

  type Rows = map<nat, R.Row>

  /** What one market's finalisation needs: its row as selected, its attestations and data sources, the
      chain's answer to a list of proofs, and its outcomes by index. */
  datatype Due = Due(id: nat, copy: R.Row, hasChainData: bool, attestations: seq<Attestation>, sources: seq<nat>,
                     chain: seq<Proof> -> ChainResult, outcome: nat -> Option<nat>)

  /** The chain is asked, and only then, with every attestation's proof. */
  function Answer(d: Due, check: Proof -> Check): Option<ChainResult> {
    if Gate(d.attestations, d.sources, d.hasChainData, check) then Some(d.chain(Proofs(d.attestations))) else None
  }

  predicate IsDecided(d: Due, check: Proof -> Check, outcome: nat) {
    && Answer(d, check).Some? && Answer(d, check).value.Decided?
    && d.outcome(Answer(d, check).value.winnerIdx) == Some(outcome)
  }

  /** The writes of the automatic finaliser for one market, as a writer of the market's row. */
  function AutomaticWriter(d: Due, check: Proof -> Check): (w: Option<(R.Writer, Option<nat>)>)
    ensures w.Some? && w.value.0 == R.AutoFinalise <==> exists o :: IsDecided(d, check, o)
    ensures w.Some? && w.value.0 == R.AutoFinalise ==> w.value.1.Some? && IsDecided(d, check, w.value.1.value)
    ensures w.Some? && w.value.0 == R.AutoError
            <==> d.hasChainData && (|d.attestations| != |d.sources| || !AllPresent(d.attestations))
    ensures w.Some? && w.value.0 == R.AutoVoting <==> Answer(d, check) == Some(ToVote)
  {
    var answer := Answer(d, check);
    if answer.Some? && answer.value.Decided? && d.outcome(answer.value.winnerIdx).Some? then
      assert IsDecided(d, check, d.outcome(answer.value.winnerIdx).value);
      Some((R.AutoFinalise, d.outcome(answer.value.winnerIdx)))
    else if answer == Some(ToVote) then Some((R.AutoVoting, None))
    else if d.hasChainData && (|d.attestations| != |d.sources| || !AllPresent(d.attestations))
      then Some((R.AutoError, None))
    else None
  }

  /** As many attestations as data sources, and a proof for each. */
  ghost predicate Complete(d: Due) {
    |d.attestations| == |d.sources| && forall k :: 0 <= k < |d.attestations| ==> d.attestations[k].proof.Some?
  }

  ghost predicate Verifies(d: Due, check: Proof -> Check) {
    Complete(d) && forall k :: 0 <= k < |d.attestations| ==> check(d.attestations[k].proof.value) == Verified
  }

  /** What the chain answers when it is given the proofs in order. */
  ghost function Reply(d: Due): ChainResult
    requires Complete(d)
  {
    d.chain(seq(|d.attestations|, k requires 0 <= k < |d.attestations| => d.attestations[k].proof.value))
  }

  /** What a run leaves of a market with chain data. */
  ghost predicate Settles(d: Due, check: Proof -> Check, rows: Rows) {
    if !Complete(d) then d.id in rows && rows[d.id] == R.Row(M.Error, d.copy.winner)
    else
      Verifies(d, check) ==>
        match Reply(d)
        case Decided(k) => d.outcome(k).Some? ==> d.id in rows && rows[d.id] == R.Row(M.Finalized, d.outcome(k))
        case ToVote => d.id in rows && rows[d.id] == R.Row(M.Voting, d.copy.winner)
        case _ => true
  }

  /** A market that a run does not write. */
  ghost predicate LeftAlone(d: Due, check: Proof -> Check) {
    d.hasChainData ==>
      && Complete(d)
      && (Verifies(d, check) ==>
            match Reply(d)
            case Decided(k) => d.outcome(k).None?
            case ToVote => false
            case _ => true)
  }

  function AfterAutomatic(rows: Rows, due: seq<Due>, check: Proof -> Check): Rows {
    if |due| == 0 then rows
    else
      var d := due[|due| - 1];
      var w := AutomaticWriter(d, check);
      if w.Some? then AfterAutomatic(rows, due[..|due| - 1], check)[d.id := R.Written(w.value.0, d.copy, w.value.1)]
      else AfterAutomatic(rows, due[..|due| - 1], check)
  }

  /** The chain, asked without proofs, puts the market to the vote. */
  predicate ToBeVoted(d: Due) {
    d.hasChainData && d.chain([]) == ToVote
  }

  predicate OneEachDue(due: seq<Due>) {
    forall i, j :: 0 <= i < j < |due| ==> due[i].id != due[j].id
  }

  function AfterManual(rows: Rows, due: seq<Due>): Rows {
    if |due| == 0 then rows
    else
      var d := due[|due| - 1];
      if ToBeVoted(d)
      then AfterManual(rows, due[..|due| - 1])[d.id := R.Written(R.ManualVoting, d.copy, None)]
      else AfterManual(rows, due[..|due| - 1])
  }

  class PredictionSets {
    var rows: Rows

    constructor (content: Rows)
      ensures rows == content
    {
      rows := content;
    }

    /** A market that is decided ends finalised with the outcome the chain named, one without consensus in
        voting and one that lacks an attestation or a proof in error, each from its selected copy; every
        other row stays. */
    method FinalizeAutomatic(due: seq<Due>, check: Proof -> Check)
      modifies this
      ensures rows == AfterAutomatic(old(rows), due, check)
      ensures OneEachDue(due) ==>
                forall i :: 0 <= i < |due| && due[i].hasChainData ==> Settles(due[i], check, rows)
      ensures forall id :: (forall i :: 0 <= i < |due| && due[i].id == id ==> LeftAlone(due[i], check)) ==>
                (id in rows <==> id in old(rows)) && (id in rows ==> rows[id] == old(rows)[id])
    {
      for i := 0 to |due|
        invariant rows == AfterAutomatic(old(rows), due[..i], check)
      {
        assert due[..i + 1][..i] == due[..i];
        FinalizeOne(due[i], check);
      }
      assert due[..|due|] == due;
      forall i | OneEachDue(due) && 0 <= i < |due| && due[i].hasChainData ensures Settles(due[i], check, rows) {
        RowByName(old(rows), due, check, i);
      }
      forall id | forall i :: 0 <= i < |due| && due[i].id == id ==> LeftAlone(due[i], check)
        ensures (id in rows <==> id in old(rows)) && (id in rows ==> rows[id] == old(rows)[id])
      {
        forall i | 0 <= i < |due| && due[i].id == id ensures AutomaticWriter(due[i], check).None? {
          NoWriter(due[i], check);
        }
        RowUntouched(old(rows), due, check, id);
      }
    }

    method FinalizeOne(d: Due, check: Proof -> Check)
      modifies this
      ensures var w := AutomaticWriter(d, check);
              rows == if w.Some? then old(rows)[d.id := R.Written(w.value.0, d.copy, w.value.1)] else old(rows)
    {
      var table := new AttestationTable.Of(d.attestations);
      var predictionSet := d.copy;
      var verdict := table.Resolve(d.hasChainData, d.sources, check);
      match verdict {
        case NoChainData =>
        case NotAllVerified =>
        case MarkedError =>
          predictionSet := predictionSet.(setStatus := M.Error);
          rows := rows[d.id := predictionSet];
        case ChainCalled(proofs) =>
          match d.chain(proofs) {
            case Decided(winnerIdx) =>
              var outcome := d.outcome(winnerIdx);
              if outcome.None? { return; }
              predictionSet := predictionSet.(winner := outcome, setStatus := M.Finalized);
              rows := rows[d.id := predictionSet];
            case ToVote =>
              predictionSet := predictionSet.(setStatus := M.Voting);
              rows := rows[d.id := predictionSet];
            case _ =>
          }
      }
    }

    /** Manual markets are finalised on the chain without proofs: a market for which the chain answers
        "voting" ends as its selected copy in voting, every other market is left alone. */
    method FinalizeManual(due: seq<Due>)
      modifies this
      ensures rows == AfterManual(old(rows), due)
      ensures OneEachDue(due) ==> forall i :: 0 <= i < |due| && due[i].hasChainData && due[i].chain([]) == ToVote ==>
                due[i].id in rows && rows[due[i].id] == R.Row(M.Voting, due[i].copy.winner)
      ensures forall id :: (forall i :: 0 <= i < |due| && due[i].id == id ==>
                              !(due[i].hasChainData && due[i].chain([]) == ToVote)) ==>
                (id in rows <==> id in old(rows)) && (id in rows ==> rows[id] == old(rows)[id])
    {
      for i := 0 to |due|
        invariant rows == AfterManual(old(rows), due[..i])
      {
        assert due[..i + 1][..i] == due[..i];
        if !due[i].hasChainData { continue; }
        if due[i].chain([]) != ToVote { continue; }
        rows := rows[due[i].id := due[i].copy.(setStatus := M.Voting)];
      }
      assert due[..|due|] == due;
      forall i | OneEachDue(due) && 0 <= i < |due| && ToBeVoted(due[i])
        ensures due[i].id in rows && rows[due[i].id] == R.Row(M.Voting, due[i].copy.winner)
      {
        VotedRow(old(rows), due, i);
      }
      forall id | forall i :: 0 <= i < |due| && due[i].id == id ==> !ToBeVoted(due[i])
        ensures (id in rows <==> id in old(rows)) && (id in rows ==> rows[id] == old(rows)[id])
      {
        NotVotedRow(old(rows), due, id);
      }
    }
  }

  // ---------------------------------------------------------------- what a run can finalise

  lemma {:induction false} RowAfterAutomatic(rows: Rows, due: seq<Due>, check: Proof -> Check, i: nat)
    requires i < |due| && OneEachDue(due)
    ensures var w := AutomaticWriter(due[i], check);
            w.Some? ==> due[i].id in AfterAutomatic(rows, due, check)
                        && AfterAutomatic(rows, due, check)[due[i].id] == R.Written(w.value.0, due[i].copy, w.value.1)
    decreases |due|
  {
    if i == |due| - 1 {
    } else {
      RowAfterAutomatic(rows, due[..|due| - 1], check, i);
    }
  }

  lemma RowByName(rows: Rows, due: seq<Due>, check: Proof -> Check, i: nat)
    requires i < |due| && OneEachDue(due) && due[i].hasChainData
    ensures Settles(due[i], check, AfterAutomatic(rows, due, check))
  {
    hide AfterAutomatic;
    var d := due[i];
    RowAfterAutomatic(rows, due, check, i);
    if Complete(d) {
      assert AllPresent(d.attestations);
      assert Proofs(d.attestations)
             == seq(|d.attestations|, k requires 0 <= k < |d.attestations| => d.attestations[k].proof.value);
      if Verifies(d, check) && Reply(d).Decided? && d.outcome(Reply(d).winnerIdx).Some? {
        assert IsDecided(d, check, d.outcome(Reply(d).winnerIdx).value);
      }
    }
  }

  lemma NoWriter(d: Due, check: Proof -> Check)
    requires LeftAlone(d, check)
    ensures AutomaticWriter(d, check).None?
  {
    if d.hasChainData && Complete(d) {
      assert AllPresent(d.attestations);
      assert Proofs(d.attestations)
             == seq(|d.attestations|, k requires 0 <= k < |d.attestations| => d.attestations[k].proof.value);
    }
  }

  lemma {:induction false} RowUntouched(rows: Rows, due: seq<Due>, check: Proof -> Check, id: nat)
    requires forall i :: 0 <= i < |due| && due[i].id == id ==> AutomaticWriter(due[i], check).None?
    ensures id in AfterAutomatic(rows, due, check) <==> id in rows
    ensures id in rows ==> AfterAutomatic(rows, due, check)[id] == rows[id]
  {
    if |due| == 0 {
    } else {
      RowUntouched(rows, due[..|due| - 1], check, id);
    }
  }

  lemma {:induction false} VotedRow(rows: Rows, due: seq<Due>, i: nat)
    requires i < |due| && OneEachDue(due) && ToBeVoted(due[i])
    ensures due[i].id in AfterManual(rows, due)
            && AfterManual(rows, due)[due[i].id] == R.Row(M.Voting, due[i].copy.winner)
    decreases |due|
  {
    if i == |due| - 1 {
    } else {
      VotedRow(rows, due[..|due| - 1], i);
    }
  }

  lemma {:induction false} NotVotedRow(rows: Rows, due: seq<Due>, id: nat)
    requires forall i :: 0 <= i < |due| && due[i].id == id ==> !ToBeVoted(due[i])
    ensures id in AfterManual(rows, due) <==> id in rows
    ensures id in rows ==> AfterManual(rows, due)[id] == rows[id]
  {
    if |due| == 0 {
    } else {
      NotVotedRow(rows, due[..|due| - 1], id);
    }
  }

  /** All that the automatic finaliser and the chain demand of a market. */
  predicate Finalisable(d: Due, check: Proof -> Check) {
    && d.hasChainData && |d.attestations| == |d.sources| && AllVerified(d.attestations, check)
    && d.chain(Proofs(d.attestations)).Decided?
    && d.outcome(d.chain(Proofs(d.attestations)).winnerIdx).Some?
  }

  /** One run over markets that were selected as active. A market that was not finalised in the meantime is
      finalised exactly when it has as many attestations as data sources, all proofs verify, and the chain,
      given those proofs in order, names an outcome that exists. When attestations are at most one per
      source, that is one for each source. */
  lemma FinalizedExactlyWhen(rows: Rows, due: seq<Due>, check: Proof -> Check, i: nat)
    requires i < |due| && OneEachDue(due) && R.Guard(R.AutoFinalise, due[i].copy)
    requires due[i].id in rows && rows[due[i].id].setStatus != M.Finalized
    ensures var d, after := due[i], AfterAutomatic(rows, due, check);
            d.id in after && (after[d.id].setStatus == M.Finalized <==> Finalisable(d, check))
    ensures var d := due[i];
            Distinct(d.sources) && OnePerSource(d.attestations, d.sources) ==>
              (|d.attestations| == |d.sources| <==> ExactlyOneEach(d.attestations, d.sources))
  {
    var d := due[i];
    var w := AutomaticWriter(d, check);
    if w.Some? {
      RowAfterAutomatic(rows, due, check, i);
    } else {
      RowUntouched(rows, due, check, d.id);
    }
    if Distinct(d.sources) && OnePerSource(d.attestations, d.sources) {
      SameCounts(d.attestations, d.sources);
      if |d.attestations| == |d.sources| { EqualCountsMatchExactlyWhen(d.attestations, d.sources); }
    }
    if Answer(d, check).Some? && Answer(d, check).value.Decided? && d.outcome(Answer(d, check).value.winnerIdx).Some? {
      assert IsDecided(d, check, d.outcome(Answer(d, check).value.winnerIdx).value);
    }
  }

  /** One attestation for each source means as many attestations as sources. */
  lemma SameCounts(rows: seq<Attestation>, sources: seq<nat>)
    requires Distinct(sources)
    ensures ExactlyOneEach(rows, sources) ==> |rows| == |sources|
  {
    if ExactlyOneEach(rows, sources) {
      CountDistinct(Sources(rows));
      CountDistinct(sources);
      assert SetOf(Sources(rows)) == SetOf(sources) by {
        forall s ensures s in SetOf(Sources(rows)) <==> s in SetOf(sources) {
          assert s in SetOf(Sources(rows)) <==> s in Sources(rows);
          assert s in SetOf(sources) <==> s in sources;
        }
      }
    }
  }
}

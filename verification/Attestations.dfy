/**
 Automatic resolution of one market: the request worker asks for one attestation per data source, the
 proof worker stores each proof once, and the finaliser calls the chain when everything is there.
 Sources: src/workers/flare/request-attestation.worker.ts, request-attestation-proof.worker.ts and
 finalize-automatic-prediction-sets.worker.ts.

 Replies of the attestation network and of the proof check are inputs.
 */
module Attestations {
  import opened Option

  type Proof = nat

  datatype Attestation = Attestation(dataSource: nat, roundId: nat, proof: Option<Proof>)

  /** What a request for one data source comes to; round 0 stands for a missing round. */
  datatype Reply = Invalid | Submitted(roundId: nat) | Raised

  datatype Check = Verified | NotVerified | CheckRaised

  /** The finaliser's decision about a market that is due. */
  datatype Verdict = NoChainData | MarkedError | NotAllVerified | ChainCalled(proofs: seq<Proof>)

  predicate Distinct<T(==)>(s: seq<T>) {
    forall i, j :: 0 <= i < j < |s| ==> s[i] != s[j]
  }

  function Sources(rows: seq<Attestation>): (ids: seq<nat>)
    ensures |ids| == |rows| && forall i :: 0 <= i < |rows| ==> ids[i] == rows[i].dataSource
  {
    seq(|rows|, i requires 0 <= i < |rows| => rows[i].dataSource)
  }

  predicate Requestable(source: nat, existing: seq<nat>, replies: nat -> Reply) {
    source !in existing && replies(source).Submitted? && replies(source).roundId != 0
  }

  /** The rows that one pass over the data sources inserts. */
  function Requested(sources: seq<nat>, existing: seq<nat>, replies: nat -> Reply): seq<Attestation> {
    if |sources| == 0 then []
    else if Requestable(sources[|sources| - 1], existing, replies)
    then Requested(sources[..|sources| - 1], existing, replies)
         + [Attestation(sources[|sources| - 1], replies(sources[|sources| - 1]).roundId, None)]
    else Requested(sources[..|sources| - 1], existing, replies)
  }

  /** A proof is filled in where it is missing and never overwritten. */
  function Filled(row: Attestation, proof: Option<Proof>): Attestation {
    if row.proof.Some? then row else row.(proof := proof)
  }

  function Proved(rows: seq<Attestation>, proofs: nat -> Option<Proof>): (r: seq<Attestation>)
    ensures |r| == |rows| && forall i: nat :: i < |rows| ==> r[i] == Filled(rows[i], proofs(i))
  {
    if |rows| == 0 then [] else Proved(rows[..|rows| - 1], proofs) + [Filled(rows[|rows| - 1], proofs(|rows| - 1))]
  }

  predicate AllVerified(rows: seq<Attestation>, check: Proof -> Check) {
    forall i :: 0 <= i < |rows| ==> rows[i].proof.Some? && check(rows[i].proof.value) == Verified
  }

  /** What the finaliser demands before it calls the chain. */
  predicate Gate(rows: seq<Attestation>, sources: seq<nat>, hasChainData: bool, check: Proof -> Check) {
    hasChainData && |rows| == |sources| && AllVerified(rows, check)
  }

  predicate AllPresent(rows: seq<Attestation>) {
    forall i :: 0 <= i < |rows| ==> rows[i].proof.Some?
  }

  function Proofs(rows: seq<Attestation>): seq<Proof>
    requires AllPresent(rows)
  {
    seq(|rows|, i requires 0 <= i < |rows| => rows[i].proof.value)
  }

  class AttestationTable {
    var rows: seq<Attestation>

    constructor ()
      ensures rows == []
    {
      rows := [];
    }

    constructor Of(content: seq<Attestation>)
      ensures rows == content
    {
      rows := content;
    }

    /** The request worker: `linked` counts the market's data sources including deleted ones, `sources`
        are those that the query returns. */
    method RequestAttestations(linked: nat, sources: seq<nat>, replies: nat -> Reply)
      modifies this
      ensures rows == if linked > |old(rows)| then old(rows) + Requested(sources, Sources(old(rows)), replies)
              else old(rows)
      ensures rows == AfterRun(old(rows), linked, sources, RequestRun(replies))
      ensures linked > |old(rows)| ==>
                && |old(rows)| <= |rows| && rows[..|old(rows)|] == old(rows)
                && (forall k :: |old(rows)| <= k < |rows| ==>
                      && rows[k].dataSource in sources && rows[k].dataSource !in Sources(old(rows))
                      && replies(rows[k].dataSource) == Submitted(rows[k].roundId)
                      && rows[k].roundId != 0 && rows[k].proof == None)
                && (forall s ::
                      s in sources && s !in Sources(old(rows)) && replies(s).Submitted? && replies(s).roundId != 0
                      ==> s in Sources(rows[|old(rows)|..]))
    {
      if !(linked > |rows|) { return; }
      ghost var was := rows;
      var existing := Sources(rows);
      for i := 0 to |sources|
        invariant rows == was + Requested(sources[..i], existing, replies)
      {
        assert sources[..i + 1][..i] == sources[..i];
        if sources[i] in existing { continue; }
        match replies(sources[i]) {
          case Submitted(roundId) =>
            if roundId == 0 { continue; }
            rows := rows + [Attestation(sources[i], roundId, None)];
          case _ =>
        }
      }
      assert sources[..|sources|] == sources;
      RequestedAre(sources, existing, replies);
      assert rows[|was|..] == Requested(sources, existing, replies);
    }

    /** The proof worker; `proofs` is what the network returns for the round and the encoded request of each
        attestation: a proof, or none as long as the round is not final. */
    method RequestProofs(proofs: nat -> Option<Proof>)
      modifies this
      ensures rows == Proved(old(rows), proofs)
      ensures |rows| == |old(rows)|
      ensures forall k: nat :: k < |rows| ==>
                && rows[k].dataSource == old(rows)[k].dataSource && rows[k].roundId == old(rows)[k].roundId
                && rows[k].proof == if old(rows)[k].proof.Some? then old(rows)[k].proof else proofs(k)
    {
      ghost var was := rows;
      var i := 0;
      while i < |rows|
        invariant 0 <= i <= |was| == |rows|
        invariant forall k: nat :: k < i ==> rows[k] == Filled(was[k], proofs(k))
        invariant forall k :: i <= k < |rows| ==> rows[k] == was[k]
      {
        if rows[i].proof.None? && proofs(i).Some? {
          rows := rows[i := rows[i].(proof := proofs(i))];
        }
        i := i + 1;
      }
    }

    /** The finaliser, up to the call of the chain. */
    method Resolve(hasChainData: bool, sources: seq<nat>, check: Proof -> Check) returns (verdict: Verdict)
      ensures verdict == NoChainData <==> !hasChainData
      ensures verdict == MarkedError <==> hasChainData && (|rows| != |sources| || !AllPresent(rows))
      ensures verdict.ChainCalled? <==> Gate(rows, sources, hasChainData, check)
      ensures verdict.ChainCalled? ==> AllPresent(rows) && verdict.proofs == Proofs(rows)
      ensures verdict == MarkedError <==>
                hasChainData && (|rows| != |sources| || exists i :: 0 <= i < |rows| && rows[i].proof.None?)
      ensures verdict.ChainCalled? ==>
                && hasChainData && |rows| == |sources| == |verdict.proofs|
                && forall i :: 0 <= i < |rows| ==>
                     rows[i].proof == Some(verdict.proofs[i]) && check(verdict.proofs[i]) == Verified
      ensures hasChainData && |rows| == |sources| && (forall i :: 0 <= i < |rows| ==> rows[i].proof.Some?) ==>
                (verdict == NotAllVerified <==> exists i :: 0 <= i < |rows| && check(rows[i].proof.value) != Verified)
    {
      if !hasChainData { return NoChainData; }
      if |rows| != |sources| { return MarkedError; }
      var validationResults: seq<bool>, proofs := [], [];
      var markedError := false;
      for i := 0 to |rows|
        invariant !markedError && |validationResults| == i && AllPresent(rows[..i])
        invariant forall k :: 0 <= k < i ==> (validationResults[k] <==> check(rows[k].proof.value) == Verified)
        invariant (forall k :: 0 <= k < i ==> validationResults[k]) ==> proofs == Proofs(rows[..i])
      {
        assert forall k :: 0 <= k < i ==> rows[..i][k] == rows[k];
        if rows[i].proof.None? {
          markedError := true;
          validationResults := validationResults + [false];
          break;
        }
        var result := check(rows[i].proof.value);
        assert rows[..i + 1] == rows[..i] + [rows[i]];
        validationResults := validationResults + [result == Verified];
        if result != CheckRaised { proofs := proofs + [rows[i].proof.value]; }
      }
      assert rows[..|rows|] == rows;
      assert markedError ==> !validationResults[|validationResults| - 1];
      if forall k :: 0 <= k < |validationResults| ==> validationResults[k] {
        return ChainCalled(proofs);
      }
      verdict := if markedError then MarkedError else NotAllVerified;
    }
  }

  // ---------------------------------------------------------------- every run with fixed sources

  datatype Run = RequestRun(replies: nat -> Reply) | ProofRun(proofs: nat -> Option<Proof>)

  function AfterRun(rows: seq<Attestation>, linked: nat, sources: seq<nat>, run: Run): seq<Attestation> {
    match run
    case RequestRun(replies) => if linked > |rows| then rows + Requested(sources, Sources(rows), replies) else rows
    case ProofRun(proofs) => Proved(rows, proofs)
  }

  function AfterRuns(rows: seq<Attestation>, linked: nat, sources: seq<nat>, runs: seq<Run>): seq<Attestation> {
    if |runs| == 0 then rows
    else AfterRun(AfterRuns(rows, linked, sources, runs[..|runs| - 1]), linked, sources, runs[|runs| - 1])
  }

  /** At most one attestation for each data source, and none for others. */
  predicate OnePerSource(rows: seq<Attestation>, sources: seq<nat>) {
    Distinct(Sources(rows)) && forall s :: s in Sources(rows) ==> s in sources
  }

  lemma SourcesJoin(a: seq<Attestation>, b: seq<Attestation>)
    ensures Sources(a + b) == Sources(a) + Sources(b)
  {}

  lemma DistinctJoin<T>(a: seq<T>, b: seq<T>)
    requires Distinct(a) && Distinct(b) && forall x :: x in a ==> x !in b
    ensures Distinct(a + b)
  {
    forall i, j | 0 <= i < j < |a + b| ensures (a + b)[i] != (a + b)[j] {
      if i < |a| <= j { assert a[i] in a; } else if |a| <= i { assert b[i - |a|] != b[j - |a|]; }
    }
  }

  /** A pass requests, once each, exactly the data sources without attestation whose request succeeds. */
  lemma {:induction false} RequestedIsNew(sources: seq<nat>, existing: seq<nat>, replies: nat -> Reply)
    requires Distinct(sources)
    ensures var ids := Sources(Requested(sources, existing, replies));
            Distinct(ids) && forall s :: s in ids <==> s in sources && Requestable(s, existing, replies)
  {
    if |sources| == 0 {
    } else {
      var init, last := sources[..|sources| - 1], sources[|sources| - 1];
      RequestedIsNew(init, existing, replies);
      assert sources == init + [last];
      if Requestable(last, existing, replies) {
        var row := Attestation(last, replies(last).roundId, None);
        SourcesJoin(Requested(init, existing, replies), [row]);
        assert Sources([row]) == [last];
        DistinctJoin(Sources(Requested(init, existing, replies)), [last]);
      }
    }
  }

  /** The rows that a pass inserts, by what was asked and answered. */
  lemma {:induction false} RequestedAre(sources: seq<nat>, existing: seq<nat>, replies: nat -> Reply)
    ensures var rows := Requested(sources, existing, replies);
            && (forall k :: 0 <= k < |rows| ==>
                  && rows[k].dataSource in sources && rows[k].dataSource !in existing
                  && replies(rows[k].dataSource) == Submitted(rows[k].roundId)
                  && rows[k].roundId != 0 && rows[k].proof == None)
            && (forall s :: s in sources && s !in existing && replies(s).Submitted? && replies(s).roundId != 0 ==>
                  s in Sources(rows))
  {
    if |sources| == 0 {
    } else {
      var init, last := sources[..|sources| - 1], sources[|sources| - 1];
      RequestedAre(init, existing, replies);
      assert sources == init + [last];
      if Requestable(last, existing, replies) {
        var row := Attestation(last, replies(last).roundId, None);
        SourcesJoin(Requested(init, existing, replies), [row]);
        assert Sources([row]) == [last];
      }
    }
  }

  lemma SourcesOfProved(rows: seq<Attestation>, proofs: nat -> Option<Proof>)
    ensures Sources(Proved(rows, proofs)) == Sources(rows)
  {}

  lemma RunKeepsOnePerSource(rows: seq<Attestation>, linked: nat, sources: seq<nat>, run: Run)
    requires Distinct(sources) && OnePerSource(rows, sources)
    ensures OnePerSource(AfterRun(rows, linked, sources, run), sources)
  {
    match run {
      case RequestRun(replies) =>
        var more := Requested(sources, Sources(rows), replies);
        RequestedIsNew(sources, Sources(rows), replies);
        SourcesJoin(rows, more);
        DistinctJoin(Sources(rows), Sources(more));
      case ProofRun(proofs) =>
        SourcesOfProved(rows, proofs);
    }
  }

  lemma {:induction false} RunsKeepOnePerSource(linked: nat, sources: seq<nat>, runs: seq<Run>)
    requires Distinct(sources)
    ensures OnePerSource(AfterRuns([], linked, sources, runs), sources)
  {
    if |runs| == 0 {
    } else {
      RunsKeepOnePerSource(linked, sources, runs[..|runs| - 1]);
      RunKeepsOnePerSource(AfterRuns([], linked, sources, runs[..|runs| - 1]), linked, sources, runs[|runs| - 1]);
    }
  }

  /** A proof that is stored stays as it is. */
  lemma {:induction false} ProofWrittenOnce(rows: seq<Attestation>, linked: nat, sources: seq<nat>, runs: seq<Run>)
    ensures var after := AfterRuns(rows, linked, sources, runs);
            |rows| <= |after| && forall i :: 0 <= i < |rows| ==>
              && after[i].dataSource == rows[i].dataSource && after[i].roundId == rows[i].roundId
              && (rows[i].proof.Some? ==> after[i].proof == rows[i].proof)
  {
    if |runs| == 0 {
    } else {
      ProofWrittenOnce(rows, linked, sources, runs[..|runs| - 1]);
    }
  }

  // ---------------------------------------------------------------- what equal counts mean

  predicate ExactlyOneEach(rows: seq<Attestation>, sources: seq<nat>) {
    && Distinct(Sources(rows))
    && (forall s :: s in sources ==> s in Sources(rows))
    && (forall s :: s in Sources(rows) ==> s in sources)
  }

  function SetOf(s: seq<nat>): set<nat> {
    set i | 0 <= i < |s| :: s[i]
  }

  lemma {:induction false} CountDistinct(s: seq<nat>)
    requires Distinct(s)
    ensures |SetOf(s)| == |s|
  {
    if |s| == 0 {
    } else {
      var init := s[..|s| - 1];
      CountDistinct(init);
      assert SetOf(s) == SetOf(init) + {s[|s| - 1]};
    }
  }

  lemma {:induction false} SubsetOfSameSize(a: set<nat>, b: set<nat>)
    requires a <= b && |a| == |b|
    ensures a == b
  {
    if a == {} {
    } else {
      var x :| x in a;
      SubsetOfSameSize(a - {x}, b - {x});
      assert a == (a - {x}) + {x} && b == (b - {x}) + {x};
    }
  }

  /** With one row per source at most, equal counts mean one row for each data source, exactly when no
      row belongs to another source. */
  lemma EqualCountsMatchExactlyWhen(rows: seq<Attestation>, sources: seq<nat>)
    requires Distinct(sources) && Distinct(Sources(rows)) && |rows| == |sources|
    ensures ExactlyOneEach(rows, sources) <==> forall s :: s in Sources(rows) ==> s in sources
  {
    if forall s :: s in Sources(rows) ==> s in sources {
      var a, b := SetOf(Sources(rows)), SetOf(sources);
      CountDistinct(Sources(rows));
      CountDistinct(sources);
      assert |Sources(rows)| == |rows|;
      assert a <= b by { forall x | x in a ensures x in b { assert x in Sources(rows); } }
      SubsetOfSameSize(a, b);
      forall s | s in sources ensures s in Sources(rows) { assert s in b; }
    }
  }

  /** Whatever the workers did before, with the data sources fixed the chain is only called when every
      data source has exactly one attestation, and its proof is verified. */
  lemma ChainCalledOnlyWhenComplete(linked: nat, sources: seq<nat>, runs: seq<Run>, hasChainData: bool,
          check: Proof -> Check)
    requires Distinct(sources) && Gate(AfterRuns([], linked, sources, runs), sources, hasChainData, check)
    ensures var rows := AfterRuns([], linked, sources, runs);
            && ExactlyOneEach(rows, sources)
            && forall s :: s in sources ==>
                 exists i :: 0 <= i < |rows| && rows[i].dataSource == s && rows[i].proof.Some?
                   && check(rows[i].proof.value) == Verified
  {
    var rows := AfterRuns([], linked, sources, runs);
    RunsKeepOnePerSource(linked, sources, runs);
    EqualCountsMatchExactlyWhen(rows, sources);
    forall s | s in sources
      ensures exists i ::
              0 <= i < |rows| && rows[i].dataSource == s && rows[i].proof.Some?
              && check(rows[i].proof.value) == Verified
    {
      var i :| 0 <= i < |Sources(rows)| && Sources(rows)[i] == s;
      assert rows[i].dataSource == s;
    }
  }

  // ---------------------------------------------------------------- when the sources change

  /** After a market failed, its data sources may be replaced while its attestations remain. With as
      many attestations as new sources no run ever requests another one, and once the old proofs verify
      the chain is called with them although no new source has an attestation. */
  lemma {:induction false} ReplacedSourcesAreNeverAttested(rows: seq<Attestation>, sources: seq<nat>, runs: seq<Run>)
    requires |rows| >= |sources|
    ensures Sources(AfterRuns(rows, |sources|, sources, runs)) == Sources(rows)
  {
    if |runs| == 0 {
    } else {
      ReplacedSourcesAreNeverAttested(rows, sources, runs[..|runs| - 1]);
      var before := AfterRuns(rows, |sources|, sources, runs[..|runs| - 1]);
      assert |Sources(before)| == |before| && |Sources(rows)| == |rows|;
      match runs[|runs| - 1] {
        case RequestRun(_) =>
        case ProofRun(proofs) => SourcesOfProved(before, proofs);
      }
    }
  }

  lemma WrongSourcesFinalised(former: nat, current: nat, round: nat, proof: Proof, check: Proof -> Check)
    requires former != current && check(proof) == Verified
    ensures var rows := [Attestation(former, round, Some(proof))];
            Gate(rows, [current], true, check) && !ExactlyOneEach(rows, [current])
  {
    assert Sources([Attestation(former, round, Some(proof))]) == [former];
    assert former in [former];
  }

  /** Without data sources there is nothing to check, and the chain is called with no proofs. */
  lemma NoSourcesCallTheChain(check: Proof -> Check, hasChainData: bool)
    ensures Gate([], [], hasChainData, check) <==> hasChainData
    ensures Proofs([]) == []
  {}

  /** Two request runs that overlap both start from the same existing attestations. A data source is
      then attested twice exactly when both requests for one that had none are answered with a round. */
  lemma OverlapDuplicatesExactlyWhen(rows: seq<Attestation>, sources: seq<nat>, first: nat -> Reply,
          second: nat -> Reply)
    requires Distinct(sources) && OnePerSource(rows, sources)
    ensures var after := rows + Requested(sources, Sources(rows), first) + Requested(sources, Sources(rows), second);
            Distinct(Sources(after))
            <==> forall s ::
              s in sources ==> !(Requestable(s, Sources(rows), first) && Requestable(s, Sources(rows), second))
  {
    var a, b := Requested(sources, Sources(rows), first), Requested(sources, Sources(rows), second);
    RequestedIsNew(sources, Sources(rows), first);
    RequestedIsNew(sources, Sources(rows), second);
    SourcesJoin(rows, a);
    SourcesJoin(rows + a, b);
    DistinctJoin(Sources(rows), Sources(a));
    if forall s :: s in sources ==> !(Requestable(s, Sources(rows), first) && Requestable(s, Sources(rows), second)) {
      DistinctJoin(Sources(rows + a), Sources(b));
    } else {
      var s :| s in sources && Requestable(s, Sources(rows), first) && Requestable(s, Sources(rows), second);
      Repeated(Sources(rows + a), Sources(b), s);
    }
  }

  lemma Repeated<T>(a: seq<T>, b: seq<T>, x: T)
    requires x in a && x in b
    ensures !Distinct(a + b)
  {
    var i :| 0 <= i < |a| && a[i] == x;
    var j :| 0 <= j < |b| && b[j] == x;
    assert (a + b)[i] == (a + b)[|a| + j];
  }
}

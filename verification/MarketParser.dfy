/**
 The per-market event parser of src/indexer/process-scripts/prediction-set-parser.ts and the
 worker that takes its cursor over after finalisation
 (src/workers/prediction-set-finalized-parser.worker.ts).

 The chain never changes: for every kind of event it is a function from block to event list.
 User and outcome lookups, the confirmed head and failures are inputs of a cycle.
 */
module MarketParser {
  import opened Option
  import opened BlockCursor
  import opened Fpmm
  import opened Markets
  import opened Sequences

  datatype FundingEvent = FundingEvent(txHash: string, wallet: string, amounts: seq<nat>, shares: nat)
  datatype TradeEvent = TradeEvent(txHash: string, wallet: string, amount: nat, feeAmount: nat, outcomeIndex: nat,
    outcomeTokens: nat)

  datatype Chain = Chain(
    added: int -> seq<FundingEvent>,
    removed: int -> seq<FundingEvent>,
    bought: int -> seq<TradeEvent>,
    sold: int -> seq<TradeEvent>)

  datatype FundingType = Added | Removed
  datatype FundingRow = FundingRow(kind: FundingType, event: FundingEvent, user: Option<nat>,
    collateralAmount: Option<nat>)

  datatype ShareRow = ShareRow(kind: ShareType, event: TradeEvent, user: Option<nat>, outcome: nat)

  /** What the cycle looks up: users by wallet, the market's outcomes by index, `isFunded`. */
  datatype Lookups = Lookups(user: string -> Option<nat>, outcome: nat -> Option<nat>, funded: bool)

  datatype Ledger = Ledger(cursor: int, status: SetStatus, funding: seq<FundingRow>, shares: seq<ShareRow>)

  // ---------------------------------------------------------------- what one event books

  /** The amounts as parsed from their text; no amounts at all parse as a single 0. */
  function Amounts(e: FundingEvent): (a: seq<nat>)
    ensures |a| > 0
  {
    if |e.amounts| == 0 then [0] else e.amounts
  }

  function FundingRowOf(e: FundingEvent, env: Lookups): FundingRow {
    FundingRow(Added, e, env.user(e.wallet), Some(Max(Amounts(e))))
  }

  function Id(found: Option<nat>): nat {
    if found.Some? then found.value else 0
  }

  function ShareRowOf(kind: ShareType, e: TradeEvent, env: Lookups): ShareRow {
    ShareRow(kind, e, env.user(e.wallet), Id(env.outcome(e.outcomeIndex)))
  }

  /** The outcome shares that unequal funding acquires for outcome `i`. */
  function FundTrade(e: FundingEvent, i: nat): TradeEvent
    requires i < |Amounts(e)|
  {
    TradeEvent(e.txHash, e.wallet, FundAmount(Amounts(e), i), 0, i, Missing(Amounts(e), i))
  }

  function FundTrades(e: FundingEvent, n: nat): seq<TradeEvent>
    requires n <= |Amounts(e)|
  {
    if n == 0 then []
    else if Amounts(e)[n - 1] == Max(Amounts(e)) then FundTrades(e, n - 1)
    else FundTrades(e, n - 1) + [FundTrade(e, n - 1)]
  }

  function EventTrades(e: FundingEvent): seq<TradeEvent> {
    FundTrades(e, |Amounts(e)|)
  }

  function AllFundTrades(es: seq<FundingEvent>): seq<TradeEvent> {
    if |es| == 0 then []
    else AllFundTrades(es[..|es| - 1]) + EventTrades(es[|es| - 1])
  }

  function FundingRows(es: seq<FundingEvent>, env: Lookups): seq<FundingRow> {
    seq(|es|, i requires 0 <= i < |es| => FundingRowOf(es[i], env))
  }

  function ShareRows(kind: ShareType, es: seq<TradeEvent>, env: Lookups): seq<ShareRow> {
    seq(|es|, i requires 0 <= i < |es| => ShareRowOf(kind, es[i], env))
  }

  predicate OutcomesExist(es: seq<TradeEvent>, env: Lookups) {
    forall i :: 0 <= i < |es| ==> env.outcome(es[i].outcomeIndex).Some?
  }

  // ---------------------------------------------------------------- one cycle

  function AddedIn(chain: Chain, cursor: int, to: int): seq<FundingEvent> { Query(chain.added, cursor + 1, to) }
  function BoughtIn(chain: Chain, cursor: int, to: int): seq<TradeEvent> { Query(chain.bought, cursor + 1, to) }
  function SoldIn(chain: Chain, cursor: int, to: int): seq<TradeEvent> { Query(chain.sold, cursor + 1, to) }

  /** Every outcome the window's events refer to exists. */
  predicate Complete(chain: Chain, cursor: int, to: int, env: Lookups) {
    && OutcomesExist(AllFundTrades(AddedIn(chain, cursor, to)), env)
    && OutcomesExist(BoughtIn(chain, cursor, to), env)
    && OutcomesExist(SoldIn(chain, cursor, to), env)
  }

  /** The share rows of a window: shares acquired by funding, then the buys, then the sells. */
  function WindowShares(chain: Chain, cursor: int, to: int, env: Lookups): seq<ShareRow> {
    ShareRows(Fund, AllFundTrades(AddedIn(chain, cursor, to)), env)
    + (ShareRows(Buy, BoughtIn(chain, cursor, to), env) + ShareRows(Sell, SoldIn(chain, cursor, to), env))
  }

  /** The ledger after the window `cursor + 1 .. to` is committed on top of `l`. */
  function Ingest(l: Ledger, chain: Chain, cursor: int, to: int, env: Lookups): Ledger {
    var added := AddedIn(chain, cursor, to);
    Ledger(to,
           if |added| > 0 && env.funded then Active else l.status,
           l.funding + FundingRows(added, env),
           l.shares + WindowShares(chain, cursor, to, env))
  }

  datatype CycleEnd = Waiting | Stopped | Failed | Committed

  class ParserDb {
    var cursor: int
    var status: SetStatus
    var funding: seq<FundingRow>
    var shares: seq<ShareRow>
    const parseBlockSize: nat

    function Content(): Ledger
      reads this
    {
      Ledger(cursor, status, funding, shares)
    }

    constructor (start: int, size: nat)
      ensures Content() == Ledger(start, Funding, [], []) && parseBlockSize == size
    {
      cursor, status, funding, shares, parseBlockSize := start, SetStatus.Funding, [], [], size;
    }

    /** One pass of the endless loop. The inserts go to a transaction: the rows so far are kept apart
        and reach the table only with the commit. `fault` is an exception anywhere before it. */
    method Cycle(chain: Chain, env: Lookups, head: int, fault: bool) returns (end: CycleEnd)
      modifies this`cursor, this`status, this`funding, this`shares
      ensures end == Waiting <==> !MarketAdvances(old(cursor), parseBlockSize, head)
      ensures end == Committed <==> MarketAdvances(old(cursor), parseBlockSize, head) && !fault
                                    && Complete(chain, old(cursor), ToBlock(old(cursor), parseBlockSize, head), env)
      ensures Content() == if end == Committed
                           then Ingest(old(Content()), chain, old(cursor), ToBlock(old(cursor), parseBlockSize, head),
                             env)
                           else old(Content())
      ensures Content() == Step(old(Content()), chain, parseBlockSize, CycleInput(env, head, fault))
      ensures end == Committed ==>
                var added := Query(chain.added, old(cursor) + 1, cursor);
                && (added != [] && env.funded ==> status == Active)
                && (added == [] || !env.funded ==> status == old(status))
    {
      var fromBlock := cursor + 1;
      var toBlock := fromBlock + parseBlockSize;
      if toBlock > head { toBlock := head; }
      if fromBlock > toBlock { return Waiting; }

      var ok, any, newFunding, newShares := Collect(chain, env, fromBlock, toBlock);
      if !ok { return Stopped; }
      if fault { return Failed; }
      if any && env.funded && status != Active { status := Active; }
      cursor, funding, shares := toBlock, funding + newFunding, shares + newShares;
      end := Committed;
    }

    /** The rows of a window; not ok when an outcome is missing. */
    method Collect(chain: Chain, env: Lookups, fromBlock: int, toBlock: int)
      returns (ok: bool, any: bool, rows: seq<FundingRow>, shareRows: seq<ShareRow>)
      ensures ok <==> Complete(chain, fromBlock - 1, toBlock, env)
      ensures any <==> |AddedIn(chain, fromBlock - 1, toBlock)| > 0
      ensures ok ==> rows == FundingRows(AddedIn(chain, fromBlock - 1, toBlock), env)
      ensures ok ==> shareRows == WindowShares(chain, fromBlock - 1, toBlock, env)
    {
      var fundingEvents := Query(chain.added, fromBlock, toBlock);
      any := |fundingEvents| > 0;
      ok, rows, shareRows := InsertFunding(fundingEvents, env);
      var complete, trades :=
        TradeRows(Query(chain.bought, fromBlock, toBlock), Query(chain.sold, fromBlock, toBlock), env);
      ok := ok && complete;
      shareRows := shareRows + trades;
    }

    /** The rows of the window's funding events, in event order. */
    method InsertFunding(events: seq<FundingEvent>, env: Lookups)
            returns (ok: bool, rows: seq<FundingRow>, shareRows: seq<ShareRow>)
      ensures ok <==> OutcomesExist(AllFundTrades(events), env)
      ensures ok ==> rows == FundingRows(events, env) && shareRows == ShareRows(Fund, AllFundTrades(events), env)
      ensures ok <==> AllFound(events, env)
      ensures ok ==> |rows| == |events| && forall k :: 0 <= k < |rows| ==>
                && rows[k].kind == Added && rows[k].event == events[k]
                && rows[k].user == env.user(events[k].wallet)
                && rows[k].collateralAmount == Some(Max(Amounts(events[k])))
      ensures ok ==> forall k :: 0 <= k < |shareRows| ==> LooksUp(shareRows[k], Fund, env)
    {
      hide FundingRowOf, OutcomesExist, AllFound, ShareRowOf, LooksUp, FundingRows, ShareRows, AllFundTrades,
        EventTrades;
      rows, shareRows := [], [];
      FundingCompleteExactlyWhen(events, env);
      NoRows(events, env);
      for k := 0 to |events|
        invariant rows == FundingRows(events[..k], env)
        invariant shareRows == ShareRows(Fund, AllFundTrades(events[..k]), env)
        invariant OutcomesExist(AllFundTrades(events[..k]), env)
      {
        OneMoreFunding(events, k, env);
        rows := rows + [FundingRowOf(events[k], env)];
        var complete, acquired := FundShares(events[k], env);
        if !complete {
          IncompletePrefix(events, k + 1, env);
          return false, [], [];
        }
        shareRows := shareRows + acquired;
      }
      assert events[..|events|] == events;
      ok := true;
      RowsLookUp(Fund, AllFundTrades(events), env);
      FundingRowsAre(events, env);
    }

    /** The share rows of one funding event: nothing when the amounts are all equal, otherwise one row
        per outcome that got less than the largest amount. */
    method FundShares(event: FundingEvent, env: Lookups) returns (ok: bool, rows: seq<ShareRow>)
      ensures ok <==> OutcomesExist(EventTrades(event), env)
      ensures ok ==> rows == ShareRows(Fund, EventTrades(event), env)
    {
      var amounts := Amounts(event);
      var collateralAmount := Max(amounts);
      rows := [];
      if forall i :: 0 <= i < |amounts| ==> amounts[i] == collateralAmount {
        NoFundTrades(event, |amounts|);
        return true, [];
      }
      for index := 0 to |amounts|
        invariant rows == ShareRows(Fund, FundTrades(event, index), env)
        invariant OutcomesExist(FundTrades(event, index), env)
      {
        if amounts[index] == collateralAmount { continue; }
        FundTradesJoin(FundTrades(event, index), [FundTrade(event, index)], env);
        if env.outcome(index).None? {
          assert [FundTrade(event, index)][0].outcomeIndex == index;
          IncompleteEvent(event, index + 1, |amounts|, env);
          return false, [];
        }
        rows := rows + [ShareRowOf(Fund, FundTrade(event, index), env)];
      }
      ok := true;
    }

    /** Buys and then sells, in the order the two queries return them. */
    method TradeRows(buys: seq<TradeEvent>, sells: seq<TradeEvent>, env: Lookups)
            returns (ok: bool, rows: seq<ShareRow>)
      ensures ok <==> OutcomesExist(buys, env) && OutcomesExist(sells, env)
      ensures ok ==> rows == ShareRows(Buy, buys, env) + ShareRows(Sell, sells, env)
      ensures !ok ==> exists e :: (e in buys || e in sells) && env.outcome(e.outcomeIndex).None?
      ensures ok ==> |rows| == |buys| + |sells|
      ensures ok ==> forall k :: 0 <= k < |buys| ==> rows[k].event == buys[k] && LooksUp(rows[k], Buy, env)
      ensures ok ==> forall k :: 0 <= k < |sells| ==>
                rows[|buys| + k].event == sells[k] && LooksUp(rows[|buys| + k], Sell, env)
    {
      var events: seq<(ShareType, TradeEvent)> := [];
      for i := 0 to |buys|
        invariant |events| == i && forall k :: 0 <= k < i ==> events[k] == (Buy, buys[k])
      {
        events := events + [(Buy, buys[i])];
      }
      for i := 0 to |sells|
        invariant |events| == |buys| + i
        invariant forall k :: 0 <= k < |buys| ==> events[k] == (Buy, buys[k])
        invariant forall k :: |buys| <= k < |buys| + i ==> events[k] == (Sell, sells[k - |buys|])
      {
        events := events + [(Sell, sells[i])];
      }
      rows := [];
      for i := 0 to |events|
        invariant |rows| == i
        invariant forall k :: 0 <= k < i ==> env.outcome(events[k].1.outcomeIndex).Some?
        invariant forall k :: 0 <= k < i ==> rows[k] == ShareRowOf(events[k].0, events[k].1, env)
      {
        if env.outcome(events[i].1.outcomeIndex).None? {
          assert i < |buys| ==> events[i].1 == buys[i];
          assert if i < |buys| then buys[i] in buys else sells[i - |buys|] in sells;
          return false, [];
        }
        rows := rows + [ShareRowOf(events[i].0, events[i].1, env)];
      }
      assert forall k :: 0 <= k < |buys| ==> events[k].1 == buys[k];
      assert forall k :: 0 <= k < |sells| ==> events[|buys| + k].1 == sells[k];
      ok := true;
    }

    /** One run of the worker that parses removals after finalisation. */
    method ParseFinalized(chain: Chain, env: Lookups, head: int, fault: bool) returns (committed: bool)
      modifies this`cursor, this`funding
      ensures committed <==> status == Finalized && WorkerAdvances(old(cursor), parseBlockSize, head) && !fault
      ensures Content() == FinalizedStep(old(Content()), chain, parseBlockSize, CycleInput(env, head, fault))
      ensures |old(funding)| <= |funding| && forall k :: |old(funding)| <= k < |funding| ==>
                && funding[k].kind == Removed && funding[k].user == env.user(funding[k].event.wallet)
                && funding[k].collateralAmount == None
    {
      if status != Finalized { return false; }
      var fromBlock := cursor + 1;
      var toBlock := fromBlock + parseBlockSize;
      if toBlock > head { toBlock := head; }
      if fromBlock >= toBlock { return false; }
      var removed := Query(chain.removed, fromBlock, toBlock);
      var rows := [];
      for i := 0 to |removed|
        invariant rows == RemovedRows(removed[..i], env)
      {
        assert removed[..i + 1][..i] == removed[..i];
        rows := rows + [FundingRow(Removed, removed[i], env.user(removed[i].wallet), None)];
      }
      assert removed[..|removed|] == removed;
      if fault { return false; }
      cursor, funding := toBlock, funding + rows;
      committed := true;
    }
  }

  lemma OneMoreFunding(es: seq<FundingEvent>, k: nat, env: Lookups)
    requires k < |es|
    ensures FundingRows(es[..k + 1], env) == FundingRows(es[..k], env) + [FundingRowOf(es[k], env)]
    ensures var next := EventTrades(es[k]);
            && ShareRows(Fund, AllFundTrades(es[..k + 1]), env)
              == ShareRows(Fund, AllFundTrades(es[..k]), env) + ShareRows(Fund, next, env)
            && (OutcomesExist(AllFundTrades(es[..k + 1]), env)
              <==> OutcomesExist(AllFundTrades(es[..k]), env) && OutcomesExist(next, env))
  {
    TakeMore(es, k);
    FundingRowsOfMore(es[..k], es[k], env);
    FundTradesOfMore(es[..k], es[k]);
    FundTradesJoin(AllFundTrades(es[..k]), EventTrades(es[k]), env);
  }

  lemma FundingRowsOfMore(es: seq<FundingEvent>, e: FundingEvent, env: Lookups)
    ensures FundingRows(es + [e], env) == FundingRows(es, env) + [FundingRowOf(e, env)]
  {}

  lemma {:induction false} NoFundTrades(e: FundingEvent, n: nat)
    requires n <= |Amounts(e)| && forall i :: 0 <= i < |Amounts(e)| ==> Amounts(e)[i] == Max(Amounts(e))
    ensures FundTrades(e, n) == []
  {
    if n == 0 {
    } else {
      NoFundTrades(e, n - 1);
    }
  }

  lemma FundTradesJoin(a: seq<TradeEvent>, b: seq<TradeEvent>, env: Lookups)
    ensures ShareRows(Fund, a + b, env) == ShareRows(Fund, a, env) + ShareRows(Fund, b, env)
    ensures OutcomesExist(a + b, env) <==> OutcomesExist(a, env) && OutcomesExist(b, env)
  {
    if OutcomesExist(a + b, env) {
      forall i | 0 <= i < |a| ensures env.outcome(a[i].outcomeIndex).Some? { assert (a + b)[i] == a[i]; }
      forall i | 0 <= i < |b| ensures env.outcome(b[i].outcomeIndex).Some? { assert (a + b)[|a| + i] == b[i]; }
    }
  }

  lemma {:induction false} IncompleteEvent(e: FundingEvent, m: nat, n: nat, env: Lookups)
    requires m <= n <= |Amounts(e)| && !OutcomesExist(FundTrades(e, m), env)
    ensures !OutcomesExist(FundTrades(e, n), env)
    decreases n
  {
    if m == n {
    } else {
      IncompleteEvent(e, m, n - 1, env);
      if Amounts(e)[n - 1] != Max(Amounts(e)) { FundTradesJoin(FundTrades(e, n - 1), [FundTrade(e, n - 1)], env); }
    }
  }

  lemma {:induction false} IncompletePrefix(es: seq<FundingEvent>, m: nat, env: Lookups)
    requires m <= |es| && !OutcomesExist(AllFundTrades(es[..m]), env)
    ensures !OutcomesExist(AllFundTrades(es), env)
    decreases |es|
  {
    if m < |es| {
      var init := es[..|es| - 1];
      assert init[..m] == es[..m];
      IncompletePrefix(init, m, env);
      FundTradesJoin(AllFundTrades(init), EventTrades(es[|es| - 1]), env);
    } else {
      assert es[..m] == es;
    }
  }

  // ---------------------------------------------------------------- what unequal funding acquires

  /** A share row of an event acquires for its outcome what the largest amount exceeds that outcome's by,
      and books the price of that, rounded down: D is the sum of the products of the others. */
  ghost predicate Acquires(e: FundingEvent, t: TradeEvent) {
    var a, i := Amounts(e), t.outcomeIndex;
    && i < |a| && a[i] < Max(a) && a[i] + t.outcomeTokens == Max(a)
    && t.txHash == e.txHash && t.wallet == e.wallet && t.feeAmount == 0
    && var d := Sum(Others(a));
       if d == 0 then t.amount == 0
       else d * t.amount <= t.outcomeTokens * ProductExcept(a, i) < d * t.amount + d
  }

  /** A share row of the kind, for the user of the event's wallet and the outcome at its index. */
  ghost predicate LooksUp(row: ShareRow, kind: ShareType, env: Lookups) {
    && row.kind == kind && row.user == env.user(row.event.wallet)
    && env.outcome(row.event.outcomeIndex) == Some(row.outcome)
  }

  lemma NoRows(es: seq<FundingEvent>, env: Lookups)
    ensures OutcomesExist(AllFundTrades(es[..0]), env) && FundingRows(es[..0], env) == []
    ensures ShareRows(Fund, AllFundTrades(es[..0]), env) == []
  {}

  lemma FundingRowsAre(es: seq<FundingEvent>, env: Lookups)
    ensures var rows := FundingRows(es, env);
            |rows| == |es| && forall k :: 0 <= k < |rows| ==>
              && rows[k].kind == Added && rows[k].event == es[k] && rows[k].user == env.user(es[k].wallet)
              && rows[k].collateralAmount == Some(Max(Amounts(es[k])))
  {}

  lemma RowsLookUp(kind: ShareType, es: seq<TradeEvent>, env: Lookups)
    requires OutcomesExist(es, env)
    ensures forall k :: 0 <= k < |ShareRows(kind, es, env)| ==> LooksUp(ShareRows(kind, es, env)[k], kind, env)
  {}

  /** The outcomes that got less than the event's largest amount exist. */
  ghost predicate OutcomesFound(e: FundingEvent, env: Lookups) {
    forall i :: 0 <= i < |Amounts(e)| && Amounts(e)[i] < Max(Amounts(e)) ==> env.outcome(i).Some?
  }

  ghost predicate AllFound(es: seq<FundingEvent>, env: Lookups) {
    forall k :: 0 <= k < |es| ==> OutcomesFound(es[k], env)
  }

  lemma AllFoundOfMore(es: seq<FundingEvent>, env: Lookups)
    requires |es| > 0
    ensures AllFound(es, env) <==> AllFound(es[..|es| - 1], env) && OutcomesFound(es[|es| - 1], env)
  {
    hide OutcomesFound;
    if AllFound(es[..|es| - 1], env) && OutcomesFound(es[|es| - 1], env) {
      forall k | 0 <= k < |es| ensures OutcomesFound(es[k], env) {
        if k < |es| - 1 { assert es[..|es| - 1][k] == es[k]; }
      }
    }
  }

  /** These are the outcomes that the shares acquired by funding refer to. */
  lemma {:induction false} FundingCompleteExactlyWhen(es: seq<FundingEvent>, env: Lookups)
    ensures OutcomesExist(AllFundTrades(es), env) <==> AllFound(es, env)
  {
    if |es| == 0 {
    } else {
      hide EventTrades, OutcomesFound, OutcomesExist, AllFound;
      var init, last := es[..|es| - 1], es[|es| - 1];
      FundingCompleteExactlyWhen(init, env);
      AllFoundOfMore(es, env);
      FundTradesJoin(AllFundTrades(init), EventTrades(last), env);
      EventCompleteExactlyWhen(last, env);
    }
  }

  lemma EventCompleteExactlyWhen(e: FundingEvent, env: Lookups)
    ensures OutcomesExist(EventTrades(e), env) <==> OutcomesFound(e, env)
  {
    hide EventTrades, Amounts, Acquires;
    EventTradesAre(e);
    var trades := EventTrades(e);
    if OutcomesExist(trades, env) {
      forall i | 0 <= i < |Amounts(e)| && Amounts(e)[i] < Max(Amounts(e)) ensures env.outcome(i).Some? {
        var k :| 0 <= k < |trades| && Indexes(trades)[k] == i;
        assert env.outcome(trades[k].outcomeIndex).Some?;
      }
    } else {
      var k :| 0 <= k < |trades| && env.outcome(trades[k].outcomeIndex).None?;
      assert Indexes(trades)[k] in Indexes(trades);
    }
  }

  function Indexes(trades: seq<TradeEvent>): (r: seq<nat>)
    ensures |r| == |trades| && forall k :: 0 <= k < |trades| ==> r[k] == trades[k].outcomeIndex
  {
    seq(|trades|, k requires 0 <= k < |trades| => trades[k].outcomeIndex)
  }

  /** One row for each outcome that got less than the largest amount, in ascending order. */
  lemma EventTradesAre(e: FundingEvent)
    ensures var a, trades := Amounts(e), EventTrades(e);
            && (forall k :: 0 <= k < |trades| ==> Acquires(e, trades[k]))
            && (forall k, l :: 0 <= k < l < |trades| ==> trades[k].outcomeIndex < trades[l].outcomeIndex)
            && (forall i :: i in Indexes(trades) <==> 0 <= i < |a| && a[i] < Max(a))
  {
    hide Acquires;
    TradesAcquire(e, |Amounts(e)|);
    TradesAscend(e, |Amounts(e)|);
  }

  lemma {:induction false} TradesAcquire(e: FundingEvent, n: nat)
    requires n <= |Amounts(e)|
    ensures forall k :: 0 <= k < |FundTrades(e, n)| ==> Acquires(e, FundTrades(e, n)[k])
  {
    if n == 0 {
    } else {
      hide Acquires, FundAmount, Missing;
      TradesAcquire(e, n - 1);
      if Amounts(e)[n - 1] != Max(Amounts(e)) { TradeAcquires(e, n - 1); }
    }
  }

  lemma {:induction false} TradesAscend(e: FundingEvent, n: nat)
    requires n <= |Amounts(e)|
    ensures var a, trades := Amounts(e), FundTrades(e, n);
            && (forall k, l :: 0 <= k < l < |trades| ==> trades[k].outcomeIndex < trades[l].outcomeIndex)
            && (forall i :: i in Indexes(trades) <==> 0 <= i < n && a[i] < Max(a))
  {
    hide FundTrade, Indexes, Amounts, Acquires;
    if n == 0 {
    } else {
      TradesAscend(e, n - 1);
      if Amounts(e)[n - 1] != Max(Amounts(e)) {
        TradeAcquires(e, n - 1);
        AscendsFurther(FundTrades(e, n - 1), FundTrade(e, n - 1), n - 1);
      }
    }
  }

  lemma AscendsFurther(trades: seq<TradeEvent>, t: TradeEvent, i: nat)
    requires t.outcomeIndex == i && forall j :: j in Indexes(trades) ==> j < i
    ensures forall k :: 0 <= k < |trades| ==> trades[k].outcomeIndex < i
    ensures forall j :: j in Indexes(trades + [t]) <==> j in Indexes(trades) || j == i
  {
    forall k | 0 <= k < |trades| ensures trades[k].outcomeIndex < i {
      assert Indexes(trades)[k] in Indexes(trades);
    }
    assert Indexes(trades + [t]) == Indexes(trades) + [i];
  }

  lemma TradeAcquires(e: FundingEvent, i: nat)
    requires i < |Amounts(e)| && Amounts(e)[i] != Max(Amounts(e))
    ensures Acquires(e, FundTrade(e, i)) && FundTrade(e, i).outcomeIndex == i
  {}

  // ---------------------------------------------------------------- what the acquired shares cost

  function Booked(trades: seq<TradeEvent>): nat {
    if |trades| == 0 then 0 else Booked(trades[..|trades| - 1]) + trades[|trades| - 1].amount
  }

  lemma BookedOfMore(trades: seq<TradeEvent>, t: TradeEvent)
    ensures Booked(trades + [t]) == Booked(trades) + t.amount
  {
    assert (trades + [t])[..|trades|] == trades;
  }

  lemma {:induction false} BookedIsTotal(e: FundingEvent, n: nat)
    requires n <= |Amounts(e)|
    ensures Booked(FundTrades(e, n)) == FundTotal(Amounts(e), n) && |FundTrades(e, n)| == FundRows(Amounts(e), n)
  {
    if n == 0 {
    } else {
      BookedIsTotal(e, n - 1);
      BookedOfMore(FundTrades(e, n - 1), FundTrade(e, n - 1));
    }
  }

  /** The share rows of one unequal funding event book together at most its exact cost C - n * P / D, and
      miss it by less than one unit a row; C is the largest amount, n the number of outcomes, P the product
      of the amounts and D the sum of the products of the others (multiplied out by D). When two amounts are
      0, D is 0 and the rows book nothing. */
  lemma EventTradesBookTheirCost(e: FundingEvent)
    requires exists i :: 0 <= i < |Amounts(e)| && Amounts(e)[i] != Max(Amounts(e))
    ensures var a, trades := Amounts(e), EventTrades(e);
            var d := Sum(Others(a));
            if d == 0 then Booked(trades) == 0
            else && |trades| > 0
                 && d * Booked(trades) <= Max(a) * d - |a| * Product(a)
                 && Max(a) * d - |a| * Product(a) < d * Booked(trades) + d * |trades|
  {
    var a := Amounts(e);
    BookedIsTotal(e, |a|);
    if Sum(Others(a)) == 0 { FreeOfCharge(a, |a|); } else { FundingBooksItsCost(a); }
  }

  lemma {:induction false} FreeOfCharge(a: seq<nat>, n: nat)
    requires n <= |a| && Sum(Others(a)) == 0
    ensures FundTotal(a, n) == 0
  {
    if n == 0 {
    } else {
      FreeOfCharge(a, n - 1);
    }
  }

  // ---------------------------------------------------------------- every run of one parser

  /** One cycle's inputs; `aborted` stands for an exception or a crash before the commit. */
  datatype CycleInput = CycleInput(env: Lookups, head: int, aborted: bool)

  function Step(l: Ledger, chain: Chain, size: nat, c: CycleInput): Ledger {
    var to := ToBlock(l.cursor, size, c.head);
    if MarketAdvances(l.cursor, size, c.head) && !c.aborted && Complete(chain, l.cursor, to, c.env)
    then Ingest(l, chain, l.cursor, to, c.env) else l
  }

  function AfterCycles(l: Ledger, chain: Chain, size: nat, cycles: seq<CycleInput>): Ledger {
    if |cycles| == 0 then l
    else Step(AfterCycles(l, chain, size, cycles[..|cycles| - 1]), chain, size, cycles[|cycles| - 1])
  }

  /** The events behind the share rows of one kind, in row order. */
  function Trades(rows: seq<ShareRow>, kind: ShareType): seq<TradeEvent> {
    if |rows| == 0 then []
    else if rows[|rows| - 1].kind == kind then Trades(rows[..|rows| - 1], kind) + [rows[|rows| - 1].event]
    else Trades(rows[..|rows| - 1], kind)
  }

  function FundingEvents(rows: seq<FundingRow>, kind: FundingType): seq<FundingEvent> {
    if |rows| == 0 then []
    else if rows[|rows| - 1].kind == kind then FundingEvents(rows[..|rows| - 1], kind) + [rows[|rows| - 1].event]
    else FundingEvents(rows[..|rows| - 1], kind)
  }

  lemma {:induction false} TradesJoin(a: seq<ShareRow>, b: seq<ShareRow>, kind: ShareType)
    ensures Trades(a + b, kind) == Trades(a, kind) + Trades(b, kind)
  {
    if |b| == 0 {
      assert a + b == a;
    } else {
      TradesJoin(a, b[..|b| - 1], kind);
      assert (a + b)[..|a + b| - 1] == a + b[..|b| - 1];
      assert (a + b)[|a + b| - 1] == b[|b| - 1];
    }
  }

  lemma {:induction false} TradesOfRows(es: seq<TradeEvent>, rowKind: ShareType, kind: ShareType, env: Lookups)
    ensures Trades(ShareRows(rowKind, es, env), kind) == if rowKind == kind then es else []
  {
    if |es| == 0 {
    } else {
      var init := es[..|es| - 1];
      TradesOfRows(init, rowKind, kind, env);
      var rows := ShareRows(rowKind, es, env);
      assert rows[..|rows| - 1] == ShareRows(rowKind, init, env);
      assert rows[|rows| - 1] == ShareRowOf(rowKind, es[|es| - 1], env);
      assert es == init + [es[|es| - 1]];
    }
  }

  lemma {:induction false} FundingEventsJoin(a: seq<FundingRow>, b: seq<FundingRow>, kind: FundingType)
    ensures FundingEvents(a + b, kind) == FundingEvents(a, kind) + FundingEvents(b, kind)
  {
    if |b| == 0 {
      assert a + b == a;
    } else {
      FundingEventsJoin(a, b[..|b| - 1], kind);
      assert (a + b)[..|a + b| - 1] == a + b[..|b| - 1];
      assert (a + b)[|a + b| - 1] == b[|b| - 1];
    }
  }

  lemma {:induction false} FundingEventsOfRows(es: seq<FundingEvent>, kind: FundingType, env: Lookups)
    ensures FundingEvents(FundingRows(es, env), kind) == if kind == Added then es else []
  {
    if |es| == 0 {
    } else {
      var init := es[..|es| - 1];
      FundingEventsOfRows(init, kind, env);
      var rows := FundingRows(es, env);
      assert rows[..|rows| - 1] == FundingRows(init, env);
      assert rows[|rows| - 1] == FundingRowOf(es[|es| - 1], env);
      assert es == init + [es[|es| - 1]];
    }
  }

  lemma {:induction false} FundTradesOfJoin(a: seq<FundingEvent>, b: seq<FundingEvent>)
    ensures AllFundTrades(a + b) == AllFundTrades(a) + AllFundTrades(b)
  {
    if |b| == 0 {
      assert a + b == a;
    } else {
      var init, last := b[..|b| - 1], b[|b| - 1];
      InitAndLast(a, b);
      FundTradesOfJoin(a, init);
      FundTradesOfMore(a + init, last);
      FundTradesOfMore(init, last);
      Assoc(AllFundTrades(a), AllFundTrades(init), EventTrades(last));
    }
  }

  lemma InitAndLast<T>(a: seq<T>, b: seq<T>)
    requires |b| > 0
    ensures b == b[..|b| - 1] + [b[|b| - 1]] && a + b == (a + b[..|b| - 1]) + [b[|b| - 1]]
  {}

  lemma FundTradesOfMore(es: seq<FundingEvent>, e: FundingEvent)
    ensures AllFundTrades(es + [e]) == AllFundTrades(es) + EventTrades(e)
  {
    assert (es + [e])[..|es|] == es;
  }

  /** The ledger holds exactly the events of the blocks after `start` up to `to`: per kind, in chain
      order, without gap and without duplicate; and exactly the shares that its funding acquired. */
  predicate Mirrors(l: Ledger, chain: Chain, start: int, to: int) {
    && FundingEvents(l.funding, Added) == Query(chain.added, start + 1, to)
    && Trades(l.shares, Fund) == AllFundTrades(Query(chain.added, start + 1, to))
    && Trades(l.shares, Buy) == Query(chain.bought, start + 1, to)
    && Trades(l.shares, Sell) == Query(chain.sold, start + 1, to)
  }

  lemma WindowTrades(chain: Chain, cursor: int, to: int, env: Lookups, kind: ShareType)
    ensures Trades(WindowShares(chain, cursor, to, env), kind)
            == match kind
               case Fund => AllFundTrades(AddedIn(chain, cursor, to))
               case Buy => BoughtIn(chain, cursor, to)
               case Sell => SoldIn(chain, cursor, to)
  {
    var f := ShareRows(Fund, AllFundTrades(AddedIn(chain, cursor, to)), env);
    var b := ShareRows(Buy, BoughtIn(chain, cursor, to), env);
    var s := ShareRows(Sell, SoldIn(chain, cursor, to), env);
    TradesJoin(f, b + s, kind);
    TradesJoin(b, s, kind);
    TradesOfRows(AllFundTrades(AddedIn(chain, cursor, to)), Fund, kind, env);
    TradesOfRows(BoughtIn(chain, cursor, to), Buy, kind, env);
    TradesOfRows(SoldIn(chain, cursor, to), Sell, kind, env);
  }

  /** All that a ledger records, as events. */
  datatype Recorded = Recorded(added: seq<FundingEvent>, funded: seq<TradeEvent>, bought: seq<TradeEvent>,
    sold: seq<TradeEvent>)

  function RecordedIn(l: Ledger): Recorded {
    Recorded(FundingEvents(l.funding, Added), Trades(l.shares, Fund), Trades(l.shares, Buy), Trades(l.shares, Sell))
  }

  /** What the blocks `from .. to` give rise to. */
  function Expected(chain: Chain, from: int, to: int): Recorded {
    Recorded(Query(chain.added, from, to), AllFundTrades(Query(chain.added, from, to)),
             Query(chain.bought, from, to), Query(chain.sold, from, to))
  }

  function Plus(a: Recorded, b: Recorded): Recorded {
    Recorded(a.added + b.added, a.funded + b.funded, a.bought + b.bought, a.sold + b.sold)
  }

  const NOTHING := Recorded([], [], [], [])

  lemma MirrorsIs(l: Ledger, chain: Chain, start: int, to: int)
    ensures Mirrors(l, chain, start, to) <==> RecordedIn(l) == Expected(chain, start + 1, to)
  {
    hide Query, AllFundTrades, Trades, FundingEvents;
  }

  lemma IngestRecords(l: Ledger, chain: Chain, cursor: int, to: int, env: Lookups)
    ensures RecordedIn(Ingest(l, chain, cursor, to, env)) == Plus(RecordedIn(l), Expected(chain, cursor + 1, to))
  {
    hide Query, AllFundTrades, Trades, FundingEvents, WindowShares, FundingRows;
    var added, window := AddedIn(chain, cursor, to), WindowShares(chain, cursor, to, env);
    FundingEventsJoin(l.funding, FundingRows(added, env), Added);
    FundingEventsOfRows(added, Added, env);
    TradesJoin(l.shares, window, Fund);
    TradesJoin(l.shares, window, Buy);
    TradesJoin(l.shares, window, Sell);
    WindowTrades(chain, cursor, to, env, Fund);
    WindowTrades(chain, cursor, to, env, Buy);
    WindowTrades(chain, cursor, to, env, Sell);
  }

  lemma ExpectedJoin(chain: Chain, from: int, mid: int, to: int)
    requires from - 1 <= mid <= to
    ensures Expected(chain, from, to) == Plus(Expected(chain, from, mid), Expected(chain, mid + 1, to))
  {
    hide Query, AllFundTrades;
    QueryJoin(chain.added, from, mid, to);
    QueryJoin(chain.bought, from, mid, to);
    QueryJoin(chain.sold, from, mid, to);
    FundTradesOfJoin(Query(chain.added, from, mid), Query(chain.added, mid + 1, to));
  }

  lemma PlusCancels(a: Recorded, b: Recorded, c: Recorded)
    ensures Plus(a, c) == Plus(b, c) <==> a == b
  {
    SameEnd(a.added, b.added, c.added);
    SameEnd(a.funded, b.funded, c.funded);
    SameEnd(a.bought, b.bought, c.bought);
    SameEnd(a.sold, b.sold, c.sold);
  }

  lemma SameEnd<T>(a: seq<T>, b: seq<T>, c: seq<T>)
    ensures a + c == b + c <==> a == b
  {
    if a + c == b + c {
      assert |a| == |b|;
      assert (a + c)[..|a|] == a && (b + c)[..|b|] == b;
    }
  }

  lemma PlusNothing(a: Recorded, b: Recorded)
    ensures Plus(a, b) == a <==> b == NOTHING
  {
    SuffixOfJoin(a.added, b.added);
    SuffixOfJoin(a.funded, b.funded);
    SuffixOfJoin(a.bought, b.bought);
    SuffixOfJoin(a.sold, b.sold);
  }

  /** Nothing that the parser records happens in the blocks. */
  ghost predicate Silent(chain: Chain, from: int, to: int) {
    forall b :: from <= b <= to ==> chain.added(b) == [] && chain.bought(b) == [] && chain.sold(b) == []
  }

  lemma SilentIsNothing(chain: Chain, from: int, to: int)
    ensures Silent(chain, from, to) <==> Expected(chain, from, to) == NOTHING
  {
    hide Query;
    QueryEmpty(chain.added, from, to);
    QueryEmpty(chain.bought, from, to);
    QueryEmpty(chain.sold, from, to);
  }

  lemma StepMirrorsExactlyWhen(l: Ledger, chain: Chain, start: int, size: nat, c: CycleInput)
    requires start <= l.cursor
    ensures var next := Step(l, chain, size, c);
            l.cursor <= next.cursor
              && (Mirrors(next, chain, start, next.cursor) <==> Mirrors(l, chain, start, l.cursor))
  {
    hide Query, Expected, RecordedIn, Plus, Mirrors, Complete, Ingest;
    var next := Step(l, chain, size, c);
    var to := ToBlock(l.cursor, size, c.head);
    MirrorsIs(l, chain, start, l.cursor);
    if MarketAdvances(l.cursor, size, c.head) && !c.aborted && Complete(chain, l.cursor, to, c.env) {
      CursorOfIngest(l, chain, l.cursor, to, c.env);
      MirrorsIs(next, chain, start, to);
      IngestRecords(l, chain, l.cursor, to, c.env);
      ExpectedJoin(chain, start + 1, l.cursor, to);
      PlusCancels(RecordedIn(l), Expected(chain, start + 1, l.cursor), Expected(chain, l.cursor + 1, to));
    }
  }

  lemma CursorOfIngest(l: Ledger, chain: Chain, cursor: int, to: int, env: Lookups)
    ensures Ingest(l, chain, cursor, to, env).cursor == to
  {}

  /** A run of one parser neither repairs nor spoils a ledger: it mirrors the chain afterwards exactly when
      it did before. */
  lemma {:induction false} RunMirrorsExactlyWhen(start: int, l: Ledger, chain: Chain, size: nat,
          cycles: seq<CycleInput>)
    requires start <= l.cursor
    ensures var after := AfterCycles(l, chain, size, cycles);
            l.cursor <= after.cursor
              && (Mirrors(after, chain, start, after.cursor) <==> Mirrors(l, chain, start, l.cursor))
    decreases |cycles|
  {
    if |cycles| == 0 {
    } else {
      hide Mirrors, Step;
      RunMirrorsExactlyWhen(start, l, chain, size, cycles[..|cycles| - 1]);
      StepMirrorsExactlyWhen(AfterCycles(l, chain, size, cycles[..|cycles| - 1]), chain, start, size,
        cycles[|cycles| - 1]);
    }
  }

  /** Every run of successful, waiting, failing and crashed cycles of a single parser. */
  lemma LedgerMirrorsChain(start: int, status: SetStatus, chain: Chain, size: nat, cycles: seq<CycleInput>)
    ensures var l := AfterCycles(Ledger(start, status, [], []), chain, size, cycles);
            start <= l.cursor && Mirrors(l, chain, start, l.cursor)
  {
    var l := Ledger(start, status, [], []);
    assert Mirrors(l, chain, start, start);
    RunMirrorsExactlyWhen(start, l, chain, size, cycles);
  }

  // ---------------------------------------------------------------- two parsers, one cursor

  /** Two live parsers read the same cursor. The first commits the window up to `to`; the second, which may
      see another head, then commits its own window up to `other` and moves the cursor there, possibly back.
      The ledger mirrors the chain, then and after every further run of a single parser, exactly when the
      first parser's window is silent. */
  lemma TwoParsersRepeatTheWindow(start: int, l: Ledger, chain: Chain, to: int, other: int, first: Lookups,
          second: Lookups, size: nat, cycles: seq<CycleInput>)
    requires start <= l.cursor < to && l.cursor < other && Mirrors(l, chain, start, l.cursor)
    ensures var twice := Ingest(Ingest(l, chain, l.cursor, to, first), chain, l.cursor, other, second);
            var after := AfterCycles(twice, chain, size, cycles);
            && (Mirrors(twice, chain, start, twice.cursor) <==> Silent(chain, l.cursor + 1, to))
            && (Mirrors(after, chain, start, after.cursor) <==> Silent(chain, l.cursor + 1, to))
  {
    hide Query, Expected, RecordedIn, Plus, Mirrors, Ingest, AfterCycles, Silent;
    var once := Ingest(l, chain, l.cursor, to, first);
    var twice := Ingest(once, chain, l.cursor, other, second);
    CursorOfIngest(once, chain, l.cursor, other, second);
    MirrorsIs(l, chain, start, l.cursor);
    MirrorsIs(twice, chain, start, other);
    IngestRecords(l, chain, l.cursor, to, first);
    IngestRecords(once, chain, l.cursor, other, second);
    ExpectedJoin(chain, start + 1, l.cursor, other);
    PlusCancels(RecordedIn(once), RecordedIn(l), Expected(chain, l.cursor + 1, other));
    PlusNothing(RecordedIn(l), Expected(chain, l.cursor + 1, to));
    SilentIsNothing(chain, l.cursor + 1, to);
    RunMirrorsExactlyWhen(start, twice, chain, size, cycles);
  }

  lemma SuffixOfJoin<T>(a: seq<T>, b: seq<T>)
    ensures a + b == a <==> b == []
  {
    if a + b == a { assert |a + b| == |a|; }
  }

  // ---------------------------------------------------------------- after finalisation

  function RemovedRows(es: seq<FundingEvent>, env: Lookups): seq<FundingRow> {
    seq(|es|, i requires 0 <= i < |es| => FundingRow(Removed, es[i], env.user(es[i].wallet), None))
  }

  /** The finalised parser continues from the same cursor, reads removals only, and only while the
      market is finalised. */
  function FinalizedStep(l: Ledger, chain: Chain, size: nat, c: CycleInput): Ledger {
    var to := ToBlock(l.cursor, size, c.head);
    if l.status == Finalized && WorkerAdvances(l.cursor, size, c.head) && !c.aborted
    then l.(cursor := to, funding := l.funding + RemovedRows(Query(chain.removed, l.cursor + 1, to), c.env)) else l
  }

  function AfterFinalized(l: Ledger, chain: Chain, size: nat, cycles: seq<CycleInput>): Ledger {
    if |cycles| == 0 then l
    else FinalizedStep(AfterFinalized(l, chain, size, cycles[..|cycles| - 1]), chain, size, cycles[|cycles| - 1])
  }

  lemma {:induction false} RemovedEventsOfRows(es: seq<FundingEvent>, env: Lookups)
    ensures FundingEvents(RemovedRows(es, env), Removed) == es && FundingEvents(RemovedRows(es, env), Added) == []
  {
    if |es| == 0 {
    } else {
      var init := es[..|es| - 1];
      RemovedEventsOfRows(init, env);
      var rows := RemovedRows(es, env);
      assert rows[..|rows| - 1] == RemovedRows(init, env);
      assert rows[|rows| - 1].event == es[|es| - 1] && rows[|rows| - 1].kind == Removed;
      assert es == init + [es[|es| - 1]];
    }
  }

  lemma FinalizedCycle(l: Ledger, chain: Chain, size: nat, c: CycleInput)
    ensures var f := FinalizedStep(l, chain, size, c);
            && l.cursor <= f.cursor && f.shares == l.shares && f.status == l.status
            && FundingEvents(f.funding, Added) == FundingEvents(l.funding, Added)
            && FundingEvents(f.funding, Removed)
              == FundingEvents(l.funding, Removed) + Query(chain.removed, l.cursor + 1, f.cursor)
  {
    var to := ToBlock(l.cursor, size, c.head);
    if l.status == Finalized && WorkerAdvances(l.cursor, size, c.head) && !c.aborted {
      var removed := Query(chain.removed, l.cursor + 1, to);
      FundingEventsJoin(l.funding, RemovedRows(removed, c.env), Removed);
      FundingEventsJoin(l.funding, RemovedRows(removed, c.env), Added);
      RemovedEventsOfRows(removed, c.env);
    }
  }

  lemma {:induction false} FinalizedRun(l: Ledger, chain: Chain, size: nat, cycles: seq<CycleInput>)
    ensures var f := AfterFinalized(l, chain, size, cycles);
            && l.cursor <= f.cursor && f.shares == l.shares && f.status == l.status
            && FundingEvents(f.funding, Added) == FundingEvents(l.funding, Added)
            && FundingEvents(f.funding, Removed)
              == FundingEvents(l.funding, Removed) + Query(chain.removed, l.cursor + 1, f.cursor)
    decreases |cycles|
  {
    hide FundingEvents, Query, FinalizedStep;
    if |cycles| == 0 {
      QueryEmpty(chain.removed, l.cursor + 1, l.cursor);
    } else {
      FinalizedRun(l, chain, size, cycles[..|cycles| - 1]);
      var before := AfterFinalized(l, chain, size, cycles[..|cycles| - 1]);
      FinalizedCycle(before, chain, size, cycles[|cycles| - 1]);
      var f := AfterFinalized(l, chain, size, cycles);
      QueryJoin(chain.removed, l.cursor + 1, before.cursor, f.cursor);
      Assoc(FundingEvents(l.funding, Removed), Query(chain.removed, l.cursor + 1, before.cursor),
        Query(chain.removed, before.cursor + 1, f.cursor));
    }
  }

  /** Events recorded up to `mid` are all events up to `to` exactly when the blocks after `mid` are silent. */
  lemma MissesNothing<E>(log: int -> seq<E>, from: int, mid: int, to: int)
    requires from - 1 <= mid <= to
    ensures Query(log, from, mid) == Query(log, from, to) <==> forall b :: mid + 1 <= b <= to ==> log(b) == []
  {
    QueryJoin(log, from, mid, to);
    QueryEmpty(log, mid + 1, to);
    SuffixOfJoin(Query(log, from, mid), Query(log, mid + 1, to));
  }

  /** Events recorded from `mid` on are all events from `from` exactly when the blocks up to `mid` are silent. */
  lemma SkippedNothing<E>(log: int -> seq<E>, from: int, mid: int, to: int)
    requires from - 1 <= mid <= to
    ensures Query(log, mid + 1, to) == Query(log, from, to) <==> forall b :: from <= b <= mid ==> log(b) == []
  {
    QueryJoin(log, from, mid, to);
    QueryEmpty(log, from, mid);
    PrefixOfJoin(Query(log, from, mid), Query(log, mid + 1, to));
  }

  /** The factory parser starts a market's cursor at the block that created it. After every run the
      ledger then holds all events from that block on exactly when the block itself has none. */
  lemma CreationBlockIsSkipped(created: int, status: SetStatus, chain: Chain, size: nat, cycles: seq<CycleInput>)
    ensures var l := AfterCycles(Ledger(created, status, [], []), chain, size, cycles);
            && (FundingEvents(l.funding, Added) == Query(chain.added, created, l.cursor)
              <==> chain.added(created) == [])
            && (Trades(l.shares, Buy) == Query(chain.bought, created, l.cursor) <==> chain.bought(created) == [])
            && (Trades(l.shares, Sell) == Query(chain.sold, created, l.cursor) <==> chain.sold(created) == [])
  {
    hide Query, AllFundTrades, Trades, FundingEvents, AfterCycles;
    LedgerMirrorsChain(created, status, chain, size, cycles);
    var l := AfterCycles(Ledger(created, status, [], []), chain, size, cycles);
    SkippedNothing(chain.added, created, created, l.cursor);
    SkippedNothing(chain.bought, created, created, l.cursor);
    SkippedNothing(chain.sold, created, created, l.cursor);
  }

  /** What the hand-over of the cursor costs: after any run of the finalised parser the ledger still
      mirrors the chain exactly when no trade and no funding lies in the blocks it passed, and holds
      every removal exactly when none lies in the blocks the market parser had passed. */
  lemma HandOverLosesExactly(start: int, l: Ledger, chain: Chain, size: nat, cycles: seq<CycleInput>)
    requires start <= l.cursor && Mirrors(l, chain, start, l.cursor) && FundingEvents(l.funding, Removed) == []
    ensures var f := AfterFinalized(l, chain, size, cycles);
            && (Trades(f.shares, Buy) == Query(chain.bought, start + 1, f.cursor)
                <==> forall b :: l.cursor + 1 <= b <= f.cursor ==> chain.bought(b) == [])
            && (Trades(f.shares, Sell) == Query(chain.sold, start + 1, f.cursor)
                <==> forall b :: l.cursor + 1 <= b <= f.cursor ==> chain.sold(b) == [])
            && (FundingEvents(f.funding, Added) == Query(chain.added, start + 1, f.cursor)
                <==> forall b :: l.cursor + 1 <= b <= f.cursor ==> chain.added(b) == [])
            && (FundingEvents(f.funding, Removed) == Query(chain.removed, start + 1, f.cursor)
                <==> forall b :: start + 1 <= b <= l.cursor ==> chain.removed(b) == [])
  {
    hide Query, AllFundTrades, Trades, FundingEvents, AfterFinalized;
    FinalizedRun(l, chain, size, cycles);
    var f := AfterFinalized(l, chain, size, cycles);
    MissesNothing(chain.bought, start + 1, l.cursor, f.cursor);
    MissesNothing(chain.sold, start + 1, l.cursor, f.cursor);
    MissesNothing(chain.added, start + 1, l.cursor, f.cursor);
    SkippedNothing(chain.removed, start + 1, l.cursor, f.cursor);
    NothingBefore(FundingEvents(f.funding, Removed), Query(chain.removed, l.cursor + 1, f.cursor));
  }

  lemma NothingBefore<T>(a: seq<T>, b: seq<T>)
    ensures a == [] + b <==> a == b
  {
    assert [] + b == b;
  }

  lemma PrefixOfJoin<T>(a: seq<T>, b: seq<T>)
    ensures b == a + b <==> a == []
  {
    if b == a + b { assert |a + b| == |b|; }
  }
}

/**
 Open positions of a user in one market: src/modules/prediction-set/models/prediction-set.model.ts.
 The average buy price is computed by walking the buys newest first; the lots that are open are
 those that sells, taken oldest first, have left. Amounts are exact numbers.
 */
module Positions {
  import opened Markets
  import opened Sequences

  /** A share transaction; it moves a positive number of outcome tokens. */
  datatype Transaction = Transaction(outcome: nat, kind: ShareType, amount: real, outcomeTokens: real)

  datatype Lot = Lot(shares: real, price: real)

  datatype Position = Position(outcome: nat, avgBuyPrice: real, collateralAmount: real, sharesAmount: real)

  predicate Moves(txs: seq<Transaction>) {
    forall i :: 0 <= i < |txs| ==> txs[i].outcomeTokens > 0.0
  }

  predicate Open(lots: seq<Lot>) {
    forall i :: 0 <= i < |lots| ==> lots[i].shares > 0.0
  }

  function Min(a: real, b: real): real {
    if a <= b then a else b
  }

  // ---------------------------------------------------------------- what a history adds up to

  /** `remainingShares`: acquired minus sold; negative when more was sold than acquired. */
  function Holding(txs: seq<Transaction>): real {
    if |txs| == 0 then 0.0
    else if txs[|txs| - 1].kind == Sell then Holding(txs[..|txs| - 1]) - txs[|txs| - 1].outcomeTokens
    else Holding(txs[..|txs| - 1]) + txs[|txs| - 1].outcomeTokens
  }

  function Collateral(txs: seq<Transaction>): real {
    if |txs| == 0 then 0.0
    else if txs[|txs| - 1].kind == Sell then Collateral(txs[..|txs| - 1]) - txs[|txs| - 1].amount
    else Collateral(txs[..|txs| - 1]) + txs[|txs| - 1].amount
  }

  function LotOf(tx: Transaction): Lot
    requires tx.outcomeTokens > 0.0
  {
    Lot(tx.outcomeTokens, tx.amount / tx.outcomeTokens)
  }

  /** Bought and funded lots, oldest first. */
  function Buys(txs: seq<Transaction>): (lots: seq<Lot>)
    requires Moves(txs)
    ensures Open(lots)
  {
    if |txs| == 0 then []
    else if txs[|txs| - 1].kind == Sell then Buys(txs[..|txs| - 1])
    else Buys(txs[..|txs| - 1]) + [LotOf(txs[|txs| - 1])]
  }

  function Sold(txs: seq<Transaction>): real {
    if |txs| == 0 then 0.0
    else if txs[|txs| - 1].kind == Sell then Sold(txs[..|txs| - 1]) + txs[|txs| - 1].outcomeTokens
    else Sold(txs[..|txs| - 1])
  }

  function Total(lots: seq<Lot>): real {
    if |lots| == 0 then 0.0 else Total(lots[..|lots| - 1]) + lots[|lots| - 1].shares
  }

  function Paid(lot: Lot): real {
    lot.shares * lot.price
  }

  function Cost(lots: seq<Lot>): real {
    if |lots| == 0 then 0.0 else Cost(lots[..|lots| - 1]) + Paid(lots[|lots| - 1])
  }

  // ---------------------------------------------------------------- newest first

  /** The lots that make up the newest `s` shares, oldest first. */
  function Newest(lots: seq<Lot>, s: real): seq<Lot> {
    if |lots| == 0 || s <= 0.0 then []
    else if lots[|lots| - 1].shares <= s
      then Newest(lots[..|lots| - 1], s - lots[|lots| - 1].shares) + [lots[|lots| - 1]]
    else [Lot(s, lots[|lots| - 1].price)]
  }

  function Average(lots: seq<Lot>): real {
    if Total(lots) > 0.0 then Cost(lots) / Total(lots) else 0.0
  }

  function PositionOf(outcome: nat, txs: seq<Transaction>): Position
    requires Moves(txs)
  {
    Position(outcome, Average(Newest(Buys(txs), Holding(txs))), Collateral(txs), Holding(txs))
  }

  lemma TotalOfMore(lots: seq<Lot>, lot: Lot)
    ensures Total(lots + [lot]) == Total(lots) + lot.shares
    ensures Cost(lots + [lot]) == Cost(lots) + Paid(lot)
  {
    assert (lots + [lot])[..|lots|] == lots;
  }

  lemma {:induction false} TotalPrepend(lot: Lot, lots: seq<Lot>)
    ensures Total([lot] + lots) == lot.shares + Total(lots)
    ensures Cost([lot] + lots) == Paid(lot) + Cost(lots)
  {
    if |lots| == 0 {
      assert [lot] + lots == [] + [lot];
      TotalOfMore([], lot);
    } else {
      var init, last := lots[..|lots| - 1], lots[|lots| - 1];
      TotalPrepend(lot, init);
      TotalOfMore([lot] + init, last);
      assert [lot] + lots == ([lot] + init) + [last];
    }
  }

  /** What the loop adds for the lot at the front of what it has walked so far. */
  lemma {:induction false} NewestSplits(lots: seq<Lot>, i: nat, s: real)
    requires i <= |lots| && Open(lots)
    ensures Newest(lots, s) == Newest(lots[..i], s - Total(lots[i..])) + Newest(lots[i..], s)
    decreases |lots|
  {
    if i == |lots| {
      assert lots[..i] == lots && lots[i..] == [];
      return;
    }
    hide Total, Newest;
    var init, last := lots[..|lots| - 1], lots[|lots| - 1];
    var rest := lots[i..];
    assert rest[..|rest| - 1] == init[i..] && rest[|rest| - 1] == last && init[..i] == lots[..i];
    TotalOfLast(rest);
    NonNegative(init[i..]);
    if s <= 0.0 {
      NothingWanted(lots, s);
      NothingWanted(rest, s);
      NothingWanted(lots[..i], s - Total(rest));
    } else if last.shares <= s {
      NewestSplits(init, i, s - last.shares);
      TakesWhole(lots, s);
      TakesWhole(rest, s);
      Assoc(Newest(init[..i], s - last.shares - Total(init[i..])), Newest(init[i..], s - last.shares), [last]);
      assert s - last.shares - Total(init[i..]) == s - Total(rest);
    } else {
      TakesPart(lots, s);
      TakesPart(rest, s);
      NothingWanted(lots[..i], s - Total(rest));
    }
  }

  lemma {:induction false} NonNegative(lots: seq<Lot>)
    requires Open(lots)
    ensures Total(lots) >= 0.0
  {
    if |lots| == 0 {
    } else {
      NonNegative(lots[..|lots| - 1]);
    }
  }

  // ---------------------------------------------------------------- the computation

  /** First pass: the signed sums and the list of buys. */
  method Summarise(transactions: seq<Transaction>)
          returns (remainingShares: real, collateralAmount: real, buys: seq<Lot>)
    requires Moves(transactions)
    ensures remainingShares == Holding(transactions) && collateralAmount == Collateral(transactions)
            && buys == Buys(transactions)
    ensures remainingShares == Total(buys) - Sold(transactions)
    ensures Cost(buys) == Spent(transactions) && collateralAmount == Spent(transactions) - Received(transactions)
  {
    remainingShares, collateralAmount, buys := 0.0, 0.0, [];
    for i := 0 to |transactions|
      invariant Moves(transactions[..i])
      invariant remainingShares == Holding(transactions[..i])
      invariant collateralAmount == Collateral(transactions[..i])
      invariant buys == Buys(transactions[..i])
    {
      var tx := transactions[i];
      assert transactions[..i + 1][..i] == transactions[..i];
      remainingShares := remainingShares + if tx.kind == Sell then -tx.outcomeTokens else tx.outcomeTokens;
      collateralAmount := collateralAmount + if tx.kind == Sell then -tx.amount else tx.amount;
      if tx.kind == Buy || tx.kind == Fund {
        buys := buys + [Lot(tx.outcomeTokens, tx.amount / tx.outcomeTokens)];
      }
    }
    assert transactions[..|transactions|] == transactions;
    HoldingIsBoughtMinusSold(transactions);
    CostIsSpent(transactions);
  }

  /** Second pass: the walk over the buys, newest first, until the shares still held are covered. */
  method WeightedAverage(buys: seq<Lot>, remainingShares: real) returns (avgBuyPrice: real)
    requires Open(buys)
    ensures avgBuyPrice == Average(Newest(buys, remainingShares))
  {
    hide Newest, Total, Cost;
    var weightedAmount, totalShares, sharesToAccount := 0.0, 0.0, remainingShares;
    var i := |buys|;
    NothingWalked(buys, remainingShares);
    while i > 0 && sharesToAccount > 0.0
      invariant 0 <= i <= |buys|
      invariant totalShares == Total(Newest(buys[i..], remainingShares))
      invariant weightedAmount == Cost(Newest(buys[i..], remainingShares))
      invariant sharesToAccount > 0.0 ==> sharesToAccount == remainingShares - Total(buys[i..])
      invariant sharesToAccount <= 0.0 ==> remainingShares - Total(buys[i..]) <= 0.0
    {
      var buy := buys[i - 1];
      var sharesFromThisBuy := Min(buy.shares, sharesToAccount);
      OneMoreLot(buys, i - 1, remainingShares);
      weightedAmount := weightedAmount + sharesFromThisBuy * buy.price;
      totalShares := totalShares + sharesFromThisBuy;
      sharesToAccount := sharesToAccount - sharesFromThisBuy;
      i := i - 1;
    }
    WalkedEnough(buys, i, remainingShares);
    avgBuyPrice := if totalShares > 0.0 then weightedAmount / totalShares else 0.0;
  }

  lemma NothingWalked(buys: seq<Lot>, s: real)
    ensures Total(buys[|buys|..]) == 0.0 && Total(Newest(buys[|buys|..], s)) == 0.0
            && Cost(Newest(buys[|buys|..], s)) == 0.0
  {}

  lemma WalkedEnough(buys: seq<Lot>, i: nat, s: real)
    requires Open(buys) && (i == 0 || (i <= |buys| && s - Total(buys[i..]) <= 0.0))
    ensures i <= |buys| && Newest(buys[i..], s) == Newest(buys, s)
  {
    NewestSplits(buys, i, s);
    assert Newest(buys[..i], s - Total(buys[i..])) == [];
  }

  lemma OneMoreLot(buys: seq<Lot>, i: nat, s: real)
    requires i < |buys| && Open(buys) && s - Total(buys[i + 1..]) > 0.0
    ensures var left := s - Total(buys[i + 1..]);
            && Total(buys[i..]) == buys[i].shares + Total(buys[i + 1..])
            && Total(Newest(buys[i..], s)) == Min(buys[i].shares, left) + Total(Newest(buys[i + 1..], s))
            && Cost(Newest(buys[i..], s)) == Min(buys[i].shares, left) * buys[i].price + Cost(Newest(buys[i + 1..], s))
  {
    hide Newest, Total, Cost;
    var rest := buys[i..];
    var left := s - Total(buys[i + 1..]);
    assert rest[1..] == buys[i + 1..] && rest[..1] == [buys[i]];
    assert rest == [buys[i]] + buys[i + 1..];
    TotalPrepend(buys[i], buys[i + 1..]);
    NewestSplits(rest, 1, s);
    var lot := Lot(Min(buys[i].shares, left), buys[i].price);
    OnlyLot(buys[i], left);
    TotalPrepend(lot, Newest(buys[i + 1..], s));
  }

  lemma OnlyLot(lot: Lot, s: real)
    requires s > 0.0
    ensures Newest([lot], s) == [Lot(Min(lot.shares, s), lot.price)]
  {
    assert [lot][..0] == [];
    assert Newest([], s - lot.shares) == [];
  }

  // ---------------------------------------------------------------- oldest first: the chronological replay

  /** What is left when `q` shares are sold from the oldest lots; selling more than there is leaves nothing. */
  function Consume(lots: seq<Lot>, q: real): seq<Lot> {
    if |lots| == 0 || q <= 0.0 then lots
    else if lots[0].shares <= q then Consume(lots[1..], q - lots[0].shares)
    else [Lot(lots[0].shares - q, lots[0].price)] + lots[1..]
  }

  /** The open lots after each sell is taken from the oldest lots open at that time. */
  function Replay(txs: seq<Transaction>): seq<Lot>
    requires Moves(txs)
  {
    if |txs| == 0 then []
    else if txs[|txs| - 1].kind == Sell then Consume(Replay(txs[..|txs| - 1]), txs[|txs| - 1].outcomeTokens)
    else Replay(txs[..|txs| - 1]) + [LotOf(txs[|txs| - 1])]
  }

  /** At no time was more sold than held. */
  predicate NeverShort(txs: seq<Transaction>) {
    forall k :: 0 <= k <= |txs| ==> Holding(txs[..k]) >= 0.0
  }

  lemma {:induction false} ConsumeTotal(lots: seq<Lot>, q: real)
    requires Open(lots) && q >= 0.0
    ensures Open(Consume(lots, q))
    ensures Total(Consume(lots, q)) == if q <= Total(lots) then Total(lots) - q else 0.0
    decreases |lots|
  {
    NonNegative(lots);
    if |lots| == 0 || q <= 0.0 { return; }
    hide Total, Consume;
    assert lots == [lots[0]] + lots[1..];
    TotalPrepend(lots[0], lots[1..]);
    NonNegative(lots[1..]);
    if lots[0].shares <= q {
      ConsumedAll(lots, q);
      ConsumeTotal(lots[1..], q - lots[0].shares);
    } else {
      ConsumedPart(lots, q);
      TotalPrepend(Lot(lots[0].shares - q, lots[0].price), lots[1..]);
    }
  }

  lemma {:induction false} ConsumeMore(lots: seq<Lot>, lot: Lot, q: real)
    requires Open(lots) && lot.shares > 0.0 && 0.0 <= q
    ensures Consume(lots + [lot], q)
            == if q <= Total(lots) then Consume(lots, q) + [lot] else Consume([lot], q - Total(lots))
    decreases |lots|
  {
    if |lots| == 0 {
      assert lots + [lot] == [lot];
    } else if q > 0.0 {
      hide Total, Consume;
      var rest := lots[1..];
      FirstAndRest(lots, lot);
      TotalPrepend(lots[0], rest);
      NonNegative(rest);
      if lots[0].shares <= q {
        ConsumeMore(rest, lot, q - lots[0].shares);
        ConsumedAll(lots + [lot], q);
        ConsumedAll(lots, q);
      } else {
        ConsumedPart(lots + [lot], q);
        ConsumedPart(lots, q);
        Assoc([Lot(lots[0].shares - q, lots[0].price)], rest, [lot]);
      }
    } else {
      NonNegative(lots);
    }
  }

  lemma FirstAndRest(lots: seq<Lot>, lot: Lot)
    requires |lots| > 0
    ensures lots == [lots[0]] + lots[1..] && (lots + [lot])[1..] == lots[1..] + [lot] && (lots + [lot])[0] == lots[0]
  {}

  lemma ConsumedPart(lots: seq<Lot>, q: real)
    requires |lots| > 0 && 0.0 < q < lots[0].shares
    ensures Consume(lots, q) == [Lot(lots[0].shares - q, lots[0].price)] + lots[1..]
  {}

  lemma ConsumedAll(lots: seq<Lot>, q: real)
    requires |lots| > 0 && 0.0 < q && lots[0].shares <= q
    ensures Consume(lots, q) == Consume(lots[1..], q - lots[0].shares)
  {}

  lemma {:induction false} NewestTotal(lots: seq<Lot>, s: real)
    requires Open(lots)
    ensures Open(Newest(lots, s))
    ensures Total(Newest(lots, s)) == if s <= 0.0 then 0.0 else Min(s, Total(lots))
    decreases |lots|
  {
    if |lots| == 0 || s <= 0.0 { return; }
    hide Total, Newest;
    var init, last := lots[..|lots| - 1], lots[|lots| - 1];
    TotalOfLast(lots);
    NonNegative(init);
    if last.shares <= s {
      NewestTotal(init, s - last.shares);
      TakesWhole(lots, s);
      TotalOfMore(Newest(init, s - last.shares), last);
    } else {
      TakesPart(lots, s);
      TotalOfOne(Lot(s, last.price));
    }
  }

  lemma TotalOfLast(lots: seq<Lot>)
    requires |lots| > 0
    ensures Total(lots) == Total(lots[..|lots| - 1]) + lots[|lots| - 1].shares
  {}

  lemma TotalOfOne(lot: Lot)
    ensures Total([lot]) == lot.shares && Cost([lot]) == Paid(lot)
  {
    assert [] + [lot] == [lot];
    TotalOfMore([], lot);
  }

  lemma NothingWanted(lots: seq<Lot>, s: real)
    requires s <= 0.0
    ensures Newest(lots, s) == []
  {}

  lemma TakesWhole(lots: seq<Lot>, s: real)
    requires |lots| > 0 && 0.0 < s && lots[|lots| - 1].shares <= s
    ensures Newest(lots, s) == Newest(lots[..|lots| - 1], s - lots[|lots| - 1].shares) + [lots[|lots| - 1]]
  {}

  lemma TakesPart(lots: seq<Lot>, s: real)
    requires |lots| > 0 && 0.0 < s < lots[|lots| - 1].shares
    ensures Newest(lots, s) == [Lot(s, lots[|lots| - 1].price)]
  {}

  /** Selling `q` from the oldest of the newest `h` shares leaves the newest `h - q`. */
  lemma {:induction false} ConsumeNewest(lots: seq<Lot>, h: real, q: real)
    requires Open(lots) && 0.0 < q <= h <= Total(lots)
    ensures Consume(Newest(lots, h), q) == Newest(lots, h - q)
    decreases |lots|
  {
    hide Total, Newest, Consume;
    if |lots| > 0 {
      var init, last := lots[..|lots| - 1], lots[|lots| - 1];
      TotalOfLast(lots);
      if last.shares <= h {
        var older := Newest(init, h - last.shares);
        TakesWhole(lots, h);
        NewestTotal(init, h - last.shares);
        ConsumeMore(older, last, q);
        if q <= h - last.shares {
          ConsumeNewest(init, h - last.shares, q);
          TakesWhole(lots, h - q);
        } else {
          ConsumeOnly(last, q - (h - last.shares));
          LastOnly(lots, h - q);
        }
      } else {
        TakesPart(lots, h);
        ConsumeOnly(Lot(h, last.price), q);
        LastOnly(lots, h - q);
      }
    } else {
      NothingOpen(lots);
    }
  }

  lemma NothingOpen(lots: seq<Lot>)
    requires |lots| == 0
    ensures Total(lots) == 0.0
  {}

  lemma LastOnly(lots: seq<Lot>, s: real)
    requires |lots| > 0 && 0.0 <= s < lots[|lots| - 1].shares
    ensures Newest(lots, s) == if s == 0.0 then [] else [Lot(s, lots[|lots| - 1].price)]
  {}

  lemma ConsumeOnly(lot: Lot, q: real)
    requires 0.0 < q <= lot.shares
    ensures Consume([lot], q) == if lot.shares <= q then [] else [Lot(lot.shares - q, lot.price)]
  {
    assert [lot][1..] == [];
    assert Consume([], q - lot.shares) == [];
  }

  lemma NewestOfMore(lots: seq<Lot>, lot: Lot, h: real)
    requires lot.shares > 0.0 && h >= 0.0
    ensures Newest(lots + [lot], h + lot.shares) == Newest(lots, h) + [lot]
  {
    assert (lots + [lot])[..|lots|] == lots;
    assert h + lot.shares - lot.shares == h;
  }

  lemma {:induction false} HoldingIsBoughtMinusSold(txs: seq<Transaction>)
    requires Moves(txs)
    ensures Holding(txs) == Total(Buys(txs)) - Sold(txs) && Sold(txs) >= 0.0
  {
    if |txs| == 0 {
    } else {
      var init, last := txs[..|txs| - 1], txs[|txs| - 1];
      HoldingIsBoughtMinusSold(init);
      if last.kind != Sell { TotalOfMore(Buys(init), LotOf(last)); }
    }
  }

  /** The collateral paid in, by buys and funding, and paid out, by sells. */
  function Spent(txs: seq<Transaction>): real {
    if |txs| == 0 then 0.0
    else Spent(txs[..|txs| - 1]) + if txs[|txs| - 1].kind == Sell then 0.0 else txs[|txs| - 1].amount
  }

  function Received(txs: seq<Transaction>): real {
    if |txs| == 0 then 0.0
    else Received(txs[..|txs| - 1]) + if txs[|txs| - 1].kind == Sell then txs[|txs| - 1].amount else 0.0
  }

  /** The lots together cost what was paid for them, one by one, and the collateral in a position is what
      was paid in minus what was paid out. */
  lemma {:induction false} CostIsSpent(txs: seq<Transaction>)
    requires Moves(txs)
    ensures Cost(Buys(txs)) == Spent(txs) && Collateral(txs) == Spent(txs) - Received(txs)
  {
    if |txs| == 0 {
    } else {
      var init, last := txs[..|txs| - 1], txs[|txs| - 1];
      CostIsSpent(init);
      if last.kind != Sell {
        TotalOfMore(Buys(init), LotOf(last));
        PaidIsAmount(last);
      }
    }
  }

  lemma PaidIsAmount(tx: Transaction)
    requires tx.outcomeTokens > 0.0
    ensures Paid(LotOf(tx)) == tx.amount && LotOf(tx).shares == tx.outcomeTokens
  {
    TimesQuotient(tx.amount, tx.outcomeTokens);
  }

  lemma {:induction false} NothingSold(txs: seq<Transaction>)
    requires forall i :: 0 <= i < |txs| ==> txs[i].kind != Sell
    ensures Sold(txs) == 0.0 && Received(txs) == 0.0
  {
    if |txs| == 0 {
    } else {
      NothingSold(txs[..|txs| - 1]);
    }
  }

  /** Without sells all lots are open: the average price times the shares is what was paid. */
  lemma {:induction false} BoughtOnly(outcome: nat, txs: seq<Transaction>)
    requires Moves(txs) && |txs| > 0 && forall i :: 0 <= i < |txs| ==> txs[i].kind != Sell
    ensures var p := PositionOf(outcome, txs);
            && p.outcome == outcome && p.sharesAmount > 0.0
            && p.avgBuyPrice * p.sharesAmount == Spent(txs) == p.collateralAmount
  {
    hide Newest, Total, Cost, Holding, Buys, Spent, Received, Sold, Collateral;
    NothingSold(txs);
    CostIsSpent(txs);
    HoldingIsBoughtMinusSold(txs);
    var lots := Buys(txs);
    SomeBought(txs);
    NewestAll(lots);
    TimesQuotient(Cost(lots), Total(lots));
  }

  lemma SomeBought(txs: seq<Transaction>)
    requires Moves(txs) && |txs| > 0 && txs[|txs| - 1].kind != Sell
    ensures Total(Buys(txs)) > 0.0
  {
    var init, last := txs[..|txs| - 1], txs[|txs| - 1];
    NonNegative(Buys(init));
    TotalOfMore(Buys(init), LotOf(last));
  }

  lemma {:induction false} NewestAll(lots: seq<Lot>)
    requires Open(lots)
    ensures Newest(lots, Total(lots)) == lots
  {
    if |lots| == 0 {
    } else {
      var init, last := lots[..|lots| - 1], lots[|lots| - 1];
      NewestAll(init);
      NonNegative(init);
      assert Total(lots) - last.shares == Total(init);
      assert init + [last] == lots;
    }
  }

  /** A sell that is never short leaves the newest lots. */
  lemma SellKeepsNewest(txs: seq<Transaction>, q: real)
    requires Moves(txs) && 0.0 < q <= Holding(txs) && Replay(txs) == Newest(Buys(txs), Holding(txs))
    ensures Consume(Replay(txs), q) == Newest(Buys(txs), Holding(txs) - q)
  {
    hide *;
    HoldingIsBoughtMinusSold(txs);
    ConsumeNewest(Buys(txs), Holding(txs), q);
  }

  /** As long as no prefix is short, the newest-first walk and the chronological replay leave the same lots. */
  lemma {:induction false} WalkIsReplay(txs: seq<Transaction>)
    requires Moves(txs) && NeverShort(txs)
    ensures Replay(txs) == Newest(Buys(txs), Holding(txs))
  {
    if |txs| == 0 { return; }
    hide Newest, Consume, Replay, Buys, Holding, NeverShort;
    var init, last := txs[..|txs| - 1], txs[|txs| - 1];
    NeverShortOfMore(txs);
    WalkIsReplay(init);
    LastStep(txs);
    if last.kind == Sell {
      SellKeepsNewest(init, last.outcomeTokens);
    } else {
      NewestOfMore(Buys(init), LotOf(last), Holding(init));
    }
  }

  lemma LastStep(txs: seq<Transaction>)
    requires |txs| > 0 && Moves(txs)
    ensures var init, last := txs[..|txs| - 1], txs[|txs| - 1];
            if last.kind == Sell
            then Replay(txs) == Consume(Replay(init), last.outcomeTokens) && Buys(txs) == Buys(init)
                 && Holding(txs) == Holding(init) - last.outcomeTokens
            else Replay(txs) == Replay(init) + [LotOf(last)] && Buys(txs) == Buys(init) + [LotOf(last)]
                 && Holding(txs) == Holding(init) + last.outcomeTokens
  {}

  lemma ShorterNeverShort(txs: seq<Transaction>, n: nat)
    requires n <= |txs| && NeverShort(txs)
    ensures NeverShort(txs[..n]) && Holding(txs[..n]) >= 0.0
  {
    forall k | 0 <= k <= n ensures Holding(txs[..n][..k]) >= 0.0 { assert txs[..n][..k] == txs[..k]; }
  }

  /** The replay never leaves fewer shares than are held. */
  lemma {:induction false} ReplayAtLeastHeld(txs: seq<Transaction>)
    requires Moves(txs)
    ensures Open(Replay(txs)) && Total(Replay(txs)) >= Holding(txs) && Total(Replay(txs)) >= 0.0
  {
    if |txs| > 0 {
      var init, last := txs[..|txs| - 1], txs[|txs| - 1];
      ReplayAtLeastHeld(init);
      if last.kind == Sell {
        ConsumeTotal(Replay(init), last.outcomeTokens);
      } else {
        TotalOfMore(Replay(init), LotOf(last));
      }
    }
  }

  /** The replayed lots add up to the shares held exactly when no prefix of the history is short. */
  lemma {:induction false} ReplayAddsUpExactlyWhen(txs: seq<Transaction>)
    requires Moves(txs)
    ensures Total(Replay(txs)) == Holding(txs) <==> NeverShort(txs)
  {
    if |txs| == 0 {
      assert txs[..0] == txs;
    } else {
      var init, last := txs[..|txs| - 1], txs[|txs| - 1];
      ReplayAddsUpExactlyWhen(init);
      ReplayAtLeastHeld(init);
      ReplayAtLeastHeld(txs);
      NeverShortOfMore(txs);
      if last.kind == Sell {
        ConsumeTotal(Replay(init), last.outcomeTokens);
      } else {
        TotalOfMore(Replay(init), LotOf(last));
      }
    }
  }

  lemma NeverShortOfMore(txs: seq<Transaction>)
    requires |txs| > 0
    ensures NeverShort(txs) <==> NeverShort(txs[..|txs| - 1]) && Holding(txs) >= 0.0
    ensures NeverShort(txs[..|txs| - 1]) ==> Holding(txs[..|txs| - 1]) >= 0.0
  {
    var init := txs[..|txs| - 1];
    assert txs[..|txs|] == txs && init[..|init|] == init;
    if NeverShort(txs) { ShorterNeverShort(txs, |txs| - 1); }
    if NeverShort(init) && Holding(txs) >= 0.0 {
      forall k | 0 <= k <= |txs| ensures Holding(txs[..k]) >= 0.0 {
        if k < |txs| { assert txs[..k] == init[..k]; }
      }
    }
  }

  // ---------------------------------------------------------------- what a shown position means

  /** An open position's walk covers exactly the shares held, whatever the history; and when no prefix
      was short its average times its shares is the cost of the lots that the replay leaves. */
  lemma OpenPositionIsReplay(outcome: nat, txs: seq<Transaction>)
    requires Moves(txs) && Holding(txs) > 0.0
    ensures Total(Newest(Buys(txs), Holding(txs))) == Holding(txs)
    ensures var p := PositionOf(outcome, txs);
            p.avgBuyPrice * p.sharesAmount == Cost(Newest(Buys(txs), Holding(txs)))
    ensures NeverShort(txs) <==> Replay(txs) == Newest(Buys(txs), Holding(txs))
  {
    hide Total, Newest, Cost, Holding, Buys, Replay, NeverShort;
    HoldingIsBoughtMinusSold(txs);
    NewestTotal(Buys(txs), Holding(txs));
    TimesQuotient(Cost(Newest(Buys(txs), Holding(txs))), Holding(txs));
    ReplayAddsUpExactlyWhen(txs);
    if NeverShort(txs) { WalkIsReplay(txs); }
  }

  lemma TimesQuotient(a: real, b: real)
    requires b > 0.0
    ensures a / b * b == a
  {}

  /** Sold one, bought one, when none was held: the replay still holds the bought share, but the
      shares held are none and no position is shown. */
  lemma SoldBeforeBought()
    ensures var txs := [Transaction(7, Sell, 2.0, 1.0), Transaction(7, Buy, 3.0, 1.0)];
            Moves(txs) && !NeverShort(txs) && Total(Replay(txs)) == 1.0 && Holding(txs) == 0.0
  {
    var sell, buy := Transaction(7, Sell, 2.0, 1.0), Transaction(7, Buy, 3.0, 1.0);
    assert [sell, buy][..1] == [sell] && [sell][..0] == [];
    assert Holding([sell]) == -1.0;
    assert Replay([sell]) == Consume([], 1.0) == [];
    assert Replay([sell, buy]) == [] + [LotOf(buy)];
    TotalOfMore([], LotOf(buy));
  }

  /** The average lies between the lowest and the highest price paid. */
  lemma AverageIsBetween(lots: seq<Lot>, s: real, low: real, high: real)
    requires Open(lots) && Total(Newest(lots, s)) > 0.0
    requires forall i :: 0 <= i < |lots| ==> low <= lots[i].price <= high
    ensures low <= Average(Newest(lots, s)) <= high
  {
    CostIsBetween(lots, s, low, high);
    QuotientIsBetween(Cost(Newest(lots, s)), Total(Newest(lots, s)), low, high);
  }

  lemma QuotientIsBetween(a: real, b: real, low: real, high: real)
    requires b > 0.0 && low * b <= a <= high * b
    ensures low <= a / b <= high
  {}

  predicate Priced(low: real, high: real, total: real, cost: real) {
    low * total <= cost <= high * total
  }

  lemma {:induction false} CostIsBetween(lots: seq<Lot>, s: real, low: real, high: real)
    requires Open(lots) && forall i :: 0 <= i < |lots| ==> low <= lots[i].price <= high
    ensures Priced(low, high, Total(Newest(lots, s)), Cost(Newest(lots, s)))
    decreases |lots|
  {
    if |lots| == 0 || s <= 0.0 { return; }
    hide Total, Newest, Cost, Priced, Paid;
    var init, last := lots[..|lots| - 1], lots[|lots| - 1];
    if last.shares <= s {
      CostIsBetween(init, s - last.shares, low, high);
      TakesWhole(lots, s);
      TotalOfMore(Newest(init, s - last.shares), last);
      Widen(low, high, last, Total(Newest(init, s - last.shares)), Cost(Newest(init, s - last.shares)));
    } else {
      TakesPart(lots, s);
      TotalOfOne(Lot(s, last.price));
      NothingPriced(low, high);
      Widen(low, high, Lot(s, last.price), 0.0, 0.0);
    }
  }

  lemma NothingPriced(low: real, high: real)
    ensures Priced(low, high, 0.0, 0.0)
  {}

  lemma Scale(a: real, b: real, s: real)
    requires a <= b && s >= 0.0
    ensures a * s <= s * b && s * a <= b * s
  {}

  lemma Widen(low: real, high: real, lot: Lot, total: real, cost: real)
    requires low <= lot.price <= high && lot.shares >= 0.0 && Priced(low, high, total, cost)
    ensures Priced(low, high, total + lot.shares, cost + Paid(lot))
  {
    Scale(low, lot.price, lot.shares);
    Scale(lot.price, high, lot.shares);
    Spread(low, total, lot.shares);
    Spread(high, total, lot.shares);
  }

  lemma Spread(a: real, x: real, y: real)
    ensures a * (x + y) == a * x + a * y
  {}

  /** The order in which sells are recorded among the buys does not show: only the buys in their order
      and the sums do. Recording a window's buys before its sells changes no position. */
  lemma SellOrderDoesNotShow(outcome: nat, a: seq<Transaction>, b: seq<Transaction>)
    requires Moves(a) && Moves(b) && Buys(a) == Buys(b) && Sold(a) == Sold(b) && Collateral(a) == Collateral(b)
    ensures PositionOf(outcome, a) == PositionOf(outcome, b)
  {
    HoldingIsBoughtMinusSold(a);
    HoldingIsBoughtMinusSold(b);
  }

  // ---------------------------------------------------------------- one position per outcome

  function OfOutcome(txs: seq<Transaction>, outcome: nat): (r: seq<Transaction>)
    ensures Moves(txs) ==> Moves(r)
  {
    if |txs| == 0 then []
    else if txs[|txs| - 1].outcome == outcome then OfOutcome(txs[..|txs| - 1], outcome) + [txs[|txs| - 1]]
    else OfOutcome(txs[..|txs| - 1], outcome)
  }

  /** The transactions of one outcome, all of them and in their order. */
  lemma {:induction false} OfOutcomeIs(txs: seq<Transaction>, outcome: nat) returns (at: seq<nat>)
    ensures var r := OfOutcome(txs, outcome);
            && |at| == |r|
            && (forall k :: 0 <= k < |r| ==> at[k] < |txs| && r[k] == txs[at[k]])
            && (forall k, l :: 0 <= k < l < |r| ==> at[k] < at[l])
            && (forall i :: i in at <==> 0 <= i < |txs| && txs[i].outcome == outcome)
  {
    if |txs| == 0 {
      at := [];
    } else {
      at := OfOutcomeIs(txs[..|txs| - 1], outcome);
      if txs[|txs| - 1].outcome == outcome { at := at + [|txs| - 1]; }
    }
  }

  predicate Ascending(keys: seq<nat>) {
    forall i, j :: 0 <= i < j < |keys| ==> keys[i] < keys[j]
  }

  /** The keys of an object are kept in ascending order, as property names that are integers are. */
  method InsertKey(keys: seq<nat>, key: nat) returns (r: seq<nat>)
    requires Ascending(keys) && key !in keys
    ensures Ascending(r) && forall k :: k in r <==> k in keys || k == key
  {
    var i := 0;
    while i < |keys| && keys[i] < key
      invariant 0 <= i <= |keys|
      invariant forall k :: 0 <= k < i ==> keys[k] < key
    {
      i := i + 1;
    }
    r := keys[..i] + [key] + keys[i..];
    assert forall k :: k in keys ==> k in keys[..i] || k in keys[i..];
  }

  lemma NoTransactions()
    ensures Ascending([]) && forall k :: OfOutcome([], k) == []
  {}

  lemma OneMoreTransaction(txs: seq<Transaction>, n: nat)
    requires n < |txs|
    ensures forall k :: OfOutcome(txs[..n + 1], k)
                        == if txs[n].outcome == k then OfOutcome(txs[..n], k) + [txs[n]] else OfOutcome(txs[..n], k)
  {
    assert txs[..n + 1][..n] == txs[..n];
  }

  /** The groups by outcome, and their keys in order. */
  method GroupByOutcome(transactions: seq<Transaction>) returns (groups: map<nat, seq<Transaction>>, keys: seq<nat>)
    ensures Ascending(keys) && forall k :: k in keys <==> k in groups
    ensures forall k :: k in groups <==> exists i :: 0 <= i < |transactions| && transactions[i].outcome == k
    ensures forall k :: k in groups ==> groups[k] == OfOutcome(transactions, k)
  {
    hide OfOutcome, Ascending;
    groups, keys := map[], [];
    NoTransactions();
    for n := 0 to |transactions|
      invariant Ascending(keys) && forall k :: k in keys <==> k in groups
      invariant forall k :: k in groups <==> exists i :: 0 <= i < n && transactions[i].outcome == k
      invariant forall k :: k in groups ==> groups[k] == OfOutcome(transactions[..n], k)
      invariant forall k :: k !in groups ==> OfOutcome(transactions[..n], k) == []
    {
      var tx := transactions[n];
      OneMoreTransaction(transactions, n);
      if tx.outcome !in groups {
        keys := InsertKey(keys, tx.outcome);
        groups := groups[tx.outcome := []];
      }
      groups := groups[tx.outcome := groups[tx.outcome] + [tx]];
    }
    assert transactions[..|transactions|] == transactions;
  }

  /** The positions of the given outcomes, without those of which no shares are held. */
  function Shown(txs: seq<Transaction>, keys: seq<nat>): seq<Position>
    requires Moves(txs)
  {
    if |keys| == 0 then []
    else if Holding(OfOutcome(txs, keys[|keys| - 1])) > 0.0
    then Shown(txs, keys[..|keys| - 1]) + [PositionOf(keys[|keys| - 1], OfOutcome(txs, keys[|keys| - 1]))]
    else Shown(txs, keys[..|keys| - 1])
  }

  /** One position for every outcome of which shares are held, in ascending order of outcome. */
  method GetOpenPositions(transactions: seq<Transaction>) returns (positions: seq<Position>)
    requires Moves(transactions)
    ensures forall i, j :: 0 <= i < j < |positions| ==> positions[i].outcome < positions[j].outcome
    ensures forall p :: p in positions ==>
              p.sharesAmount > 0.0 && p == PositionOf(p.outcome, OfOutcome(transactions, p.outcome))
    ensures forall t :: 0 <= t < |transactions| && Holding(OfOutcome(transactions, transactions[t].outcome)) > 0.0 ==>
              PositionOf(transactions[t].outcome, OfOutcome(transactions, transactions[t].outcome)) in positions
  {
    hide PositionOf, OfOutcome, Holding, Average, Newest, Buys, Collateral;
    var groups, keys := GroupByOutcome(transactions);
    positions := [];
    for n := 0 to |keys|
      invariant positions == Shown(transactions, keys[..n])
    {
      var key := keys[n];
      assert key in groups && keys[..n + 1][..n] == keys[..n];
      var remainingShares, collateralAmount, buys := Summarise(groups[key]);
      var avgBuyPrice := WeightedAverage(buys, remainingShares);
      PositionIs(key, groups[key]);
      if remainingShares > 0.0 {
        positions := positions + [Position(key, avgBuyPrice, collateralAmount, remainingShares)];
      }
    }
    assert keys[..|keys|] == keys;
    ShownIs(transactions, keys);
    forall t | 0 <= t < |transactions| ensures transactions[t].outcome in keys {}
  }

  lemma {:induction false} ShownIs(txs: seq<Transaction>, keys: seq<nat>)
    requires Moves(txs) && Ascending(keys)
    ensures var ps := Shown(txs, keys);
            && (forall i, j :: 0 <= i < j < |ps| ==> ps[i].outcome < ps[j].outcome)
            && (forall p :: p in ps ==>
                  p.outcome in keys && p.sharesAmount > 0.0 && p == PositionOf(p.outcome, OfOutcome(txs, p.outcome)))
            && (forall k :: k in keys && Holding(OfOutcome(txs, k)) > 0.0 ==> PositionOf(k, OfOutcome(txs, k)) in ps)
  {
    hide OfOutcome, Holding, Average, Newest, Buys, Collateral;
    if |keys| == 0 {
    } else {
      var init, last := keys[..|keys| - 1], keys[|keys| - 1];
      ShownIs(txs, init);
      assert keys == init + [last];
      var before, ps := Shown(txs, init), Shown(txs, keys);
      forall i, j | 0 <= i < j < |ps| ensures ps[i].outcome < ps[j].outcome {
        assert before[i] in before;
      }
    }
  }

  lemma PositionIs(outcome: nat, txs: seq<Transaction>)
    requires Moves(txs)
    ensures PositionOf(outcome, txs)
            == Position(outcome, Average(Newest(Buys(txs), Holding(txs))), Collateral(txs), Holding(txs))
  {}
}

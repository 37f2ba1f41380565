/**
 The claims parser of src/workers/claims-parser.worker.ts: payout redemptions become claims, each
 with one reward. A redemption of an unknown condition is skipped; one whose user or outcome is
 unknown rolls the whole window back, so that the cursor waits for it.

 Which conditions belong to a market is fixed; users and outcomes may appear between cycles.
 */
module Claims {
  import opened Option
  import opened BlockCursor

  datatype ClaimEvent = ClaimEvent(wallet: string, conditionId: nat, indexSet: nat, payout: nat, txHash: string)

  datatype Claim = Claim(user: nat, outcome: nat, predictionSet: nat, event: ClaimEvent)

  /** The market of a condition. */
  type Markets = nat -> Option<nat>

  /** Users by wallet, outcomes by market and index. */
  datatype Lookups = Lookups(user: string -> Option<nat>, outcome: (nat, nat) -> Option<nat>)

  function Pow2(n: nat): nat {
    if n == 0 then 1 else 2 * Pow2(n - 1)
  }

  /** The outcome index of a redeemed index set; a set of several outcomes has none. */
  function OutcomeIndex(indexSet: nat): Option<nat> {
    if indexSet == 0 then None
    else if indexSet == 1 then Some(0)
    else if indexSet % 2 == 1 then None
    else match OutcomeIndex(indexSet / 2) case None => None case Some(k) => Some(k + 1)
  }

  lemma {:induction false} OutcomeIndexIsLog2(indexSet: nat, k: nat)
    ensures OutcomeIndex(indexSet) == Some(k) <==> indexSet == Pow2(k)
    decreases indexSet
  {
    if k > 0 && indexSet > 1 && indexSet % 2 == 0 { OutcomeIndexIsLog2(indexSet / 2, k - 1); }
    if k == 0 && indexSet > 1 && indexSet % 2 == 0 { IndexIsPositive(indexSet); }
    PowPositive(k);
  }

  lemma IndexIsPositive(indexSet: nat)
    requires indexSet > 1 && indexSet % 2 == 0
    ensures OutcomeIndex(indexSet) != Some(0)
  {}

  lemma {:induction false} PowPositive(k: nat)
    ensures Pow2(k) >= 1
  {
    if k == 0 {
    } else {
      PowPositive(k - 1);
    }
  }

  predicate Known(markets: Markets, e: ClaimEvent) {
    markets(e.conditionId).Some?
  }

  predicate OutcomeFound(env: Lookups, market: nat, e: ClaimEvent) {
    OutcomeIndex(e.indexSet).Some? && env.outcome(market, OutcomeIndex(e.indexSet).value).Some?
  }

  /** A redemption that belongs to a market but cannot be booked yet. */
  predicate Blocked(markets: Markets, env: Lookups, e: ClaimEvent) {
    Known(markets, e) && (env.user(e.wallet).None? || !OutcomeFound(env, markets(e.conditionId).value, e))
  }

  predicate NoneBlocked(markets: Markets, env: Lookups, es: seq<ClaimEvent>) {
    forall i :: 0 <= i < |es| ==> !Blocked(markets, env, es[i])
  }

  function ClaimOf(markets: Markets, env: Lookups, e: ClaimEvent): Claim
    requires Known(markets, e) && !Blocked(markets, env, e)
  {
    var m := markets(e.conditionId).value;
    Claim(env.user(e.wallet).value, env.outcome(m, OutcomeIndex(e.indexSet).value).value, m, e)
  }

  function ClaimsOf(markets: Markets, env: Lookups, es: seq<ClaimEvent>): seq<Claim>
    requires NoneBlocked(markets, env, es)
  {
    if |es| == 0 then []
    else if Known(markets, es[|es| - 1])
    then ClaimsOf(markets, env, es[..|es| - 1]) + [ClaimOf(markets, env, es[|es| - 1])]
    else ClaimsOf(markets, env, es[..|es| - 1])
  }

  /** The rewarded users, one entry per reward. */
  function Users(claims: seq<Claim>): seq<nat> {
    seq(|claims|, i requires 0 <= i < |claims| => claims[i].user)
  }

  datatype Books = Books(cursor: int, claims: seq<Claim>, rewards: seq<nat>)

  function Window(log: int -> seq<ClaimEvent>, cursor: int, size: nat, head: int): seq<ClaimEvent> {
    Query(log, cursor + 1, ToBlock(cursor, size, head))
  }

  class ClaimsDb {
    var cursor: int
    var claims: seq<Claim>
    var rewards: seq<nat>
    const parseBlockSize: nat

    function Content(): Books
      reads this
    {
      Books(cursor, claims, rewards)
    }

    constructor (start: int, size: nat)
      ensures Content() == Books(start, [], []) && parseBlockSize == size
    {
      cursor, claims, rewards, parseBlockSize := start, [], [], size;
    }

    /** One run of the worker; `fault` is an exception before the commit. */
    method ParseClaims(log: int -> seq<ClaimEvent>, markets: Markets, env: Lookups, head: int, fault: bool)
            returns (committed: bool)
      modifies this`cursor, this`claims, this`rewards
      ensures committed <==> WorkerAdvances(old(cursor), parseBlockSize, head) && !fault
                             && NoneBlocked(markets, env, Window(log, old(cursor), parseBlockSize, head))
      ensures committed ==>
                && cursor == ToBlock(old(cursor), parseBlockSize, head)
                && claims == old(claims) + ClaimsOf(markets, env, Window(log, old(cursor), parseBlockSize, head))
                && rewards == old(rewards)
                  + Users(ClaimsOf(markets, env, Window(log, old(cursor), parseBlockSize, head)))
                && |rewards| - |old(rewards)| == |claims| - |old(claims)|
                && forall k :: |old(claims)| <= k < |claims| ==>
                     rewards[k - |old(claims)| + |old(rewards)|] == claims[k].user
      ensures !committed ==> Content() == old(Content())
      ensures Content() == Step(old(Content()), log, markets, parseBlockSize, CycleInput(env, head, fault))
    {
      hide Query, OutcomeIndex;
      var fromBlock := cursor + 1;
      var toBlock := fromBlock + parseBlockSize;
      if toBlock > head { toBlock := head; }
      if fromBlock >= toBlock { return false; }

      var events := Query(log, fromBlock, toBlock);
      var newClaims, newRewards := [], [];
      for i := 0 to |events|
        invariant NoneBlocked(markets, env, events[..i])
        invariant newClaims == ClaimsOf(markets, env, events[..i])
        invariant newRewards == Users(newClaims)
      {
        var event := events[i];
        assert events[..i + 1][..i] == events[..i];
        var market := markets(event.conditionId);
        if market.None? { continue; }
        var user := env.user(event.wallet);
        if user.None? { return false; }
        var index := OutcomeIndex(event.indexSet);
        if index.None? || env.outcome(market.value, index.value).None? { return false; }
        newClaims := newClaims + [Claim(user.value, env.outcome(market.value, index.value).value, market.value, event)];
        newRewards := newRewards + [user.value];
      }
      assert events[..|events|] == events;
      if fault { return false; }
      cursor, claims, rewards := toBlock, claims + newClaims, rewards + newRewards;
      committed := true;
    }
  }

  /** Nothing in the window is blocked: every redemption of a market's condition has a known user, and its
      index set is a power of two whose exponent is the index of an outcome of that market. */
  lemma NoneBlockedExactlyWhen(markets: Markets, env: Lookups, es: seq<ClaimEvent>)
    ensures NoneBlocked(markets, env, es)
            <==> forall i :: 0 <= i < |es| && markets(es[i].conditionId).Some? ==>
                   && env.user(es[i].wallet).Some?
                   && exists k :: es[i].indexSet == Pow2(k) && env.outcome(markets(es[i].conditionId).value, k).Some?
  {
    hide OutcomeIndex, Pow2;
    forall i | 0 <= i < |es| && markets(es[i].conditionId).Some?
      ensures OutcomeFound(env, markets(es[i].conditionId).value, es[i])
              <==> exists k :: es[i].indexSet == Pow2(k) && env.outcome(markets(es[i].conditionId).value, k).Some?
    {
      FoundExactlyWhen(env, markets(es[i].conditionId).value, es[i]);
    }
  }

  lemma FoundExactlyWhen(env: Lookups, market: nat, e: ClaimEvent)
    ensures OutcomeFound(env, market, e) <==> exists k :: e.indexSet == Pow2(k) && env.outcome(market, k).Some?
  {
    hide OutcomeIndex, Pow2;
    if OutcomeFound(env, market, e) { OutcomeIndexIsLog2(e.indexSet, OutcomeIndex(e.indexSet).value); }
    if k :| e.indexSet == Pow2(k) && env.outcome(market, k).Some? { OutcomeIndexIsLog2(e.indexSet, k); }
  }

  /** A claim is booked for the market of its condition, the outcome of its index set and the user of its
      wallet. */
  ghost predicate IsBooked(markets: Markets, env: Lookups, c: Claim) {
    && markets(c.event.conditionId) == Some(c.predictionSet)
    && env.user(c.event.wallet) == Some(c.user)
    && exists k :: c.event.indexSet == Pow2(k) && env.outcome(c.predictionSet, k) == Some(c.outcome)
  }

  /** The claims of a window: each is of one of its redemptions, and every redemption of a market has one. */
  lemma {:induction false} ClaimsAre(markets: Markets, env: Lookups, es: seq<ClaimEvent>)
    requires NoneBlocked(markets, env, es)
    ensures var claims := ClaimsOf(markets, env, es);
            && (forall c :: c in claims ==> c.event in es && IsBooked(markets, env, c))
            && (forall e :: e in es && markets(e.conditionId).Some? ==> e in Events(claims))
  {
    if |es| == 0 {
    } else {
      hide OutcomeIndex, Pow2, IsBooked;
      var init, last := es[..|es| - 1], es[|es| - 1];
      ClaimsAre(markets, env, init);
      assert es == init + [last];
      if Known(markets, last) {
        assert !Blocked(markets, env, es[|es| - 1]);
        ClaimBooks(markets, env, last);
        var before := ClaimsOf(markets, env, init);
        assert Events(before + [ClaimOf(markets, env, last)]) == Events(before) + [last];
      }
    }
  }

  lemma ClaimBooks(markets: Markets, env: Lookups, e: ClaimEvent)
    requires Known(markets, e) && !Blocked(markets, env, e)
    ensures IsBooked(markets, env, ClaimOf(markets, env, e)) && ClaimOf(markets, env, e).event == e
  {
    OutcomeIndexIsLog2(e.indexSet, OutcomeIndex(e.indexSet).value);
  }

  // ---------------------------------------------------------------- every run

  datatype CycleInput = CycleInput(env: Lookups, head: int, fault: bool)

  predicate Commits(b: Books, log: int -> seq<ClaimEvent>, markets: Markets, size: nat, c: CycleInput) {
    WorkerAdvances(b.cursor, size, c.head) && !c.fault
      && NoneBlocked(markets, c.env, Window(log, b.cursor, size, c.head))
  }

  function Step(b: Books, log: int -> seq<ClaimEvent>, markets: Markets, size: nat, c: CycleInput): Books {
    if Commits(b, log, markets, size, c) then
      var more := ClaimsOf(markets, c.env, Window(log, b.cursor, size, c.head));
      Books(ToBlock(b.cursor, size, c.head), b.claims + more, b.rewards + Users(more))
    else b
  }

  function AfterCycles(b: Books, log: int -> seq<ClaimEvent>, markets: Markets, size: nat,
          cycles: seq<CycleInput>): Books {
    if |cycles| == 0 then b
    else Step(AfterCycles(b, log, markets, size, cycles[..|cycles| - 1]), log, markets, size, cycles[|cycles| - 1])
  }

  /** The redemptions that belong to a market. */
  function Kept(markets: Markets, es: seq<ClaimEvent>): seq<ClaimEvent> {
    if |es| == 0 then []
    else if Known(markets, es[|es| - 1]) then Kept(markets, es[..|es| - 1]) + [es[|es| - 1]]
    else Kept(markets, es[..|es| - 1])
  }

  function Events(claims: seq<Claim>): seq<ClaimEvent> {
    seq(|claims|, i requires 0 <= i < |claims| => claims[i].event)
  }

  lemma {:induction false} KeptJoin(markets: Markets, a: seq<ClaimEvent>, b: seq<ClaimEvent>)
    ensures Kept(markets, a + b) == Kept(markets, a) + Kept(markets, b)
  {
    if |b| == 0 {
      assert a + b == a;
    } else {
      KeptJoin(markets, a, b[..|b| - 1]);
      assert (a + b)[..|a + b| - 1] == a + b[..|b| - 1] && (a + b)[|a + b| - 1] == b[|b| - 1];
    }
  }

  lemma {:induction false} EventsOfClaims(markets: Markets, env: Lookups, es: seq<ClaimEvent>)
    requires NoneBlocked(markets, env, es)
    ensures Events(ClaimsOf(markets, env, es)) == Kept(markets, es)
  {
    if |es| == 0 {
    } else {
      EventsOfClaims(markets, env, es[..|es| - 1]);
    }
  }

  lemma Joins(a: seq<Claim>, b: seq<Claim>)
    ensures Events(a + b) == Events(a) + Events(b) && Users(a + b) == Users(a) + Users(b)
  {}

  /** Every run of committing, waiting, blocked, failing and crashed cycles: the claims are exactly the
      markets' redemptions of the blocks after `start` up to the cursor, in chain order, and there is
      exactly one reward for each claim, for its user. */
  lemma {:induction false} ClaimsMirrorChain(start: int, log: int -> seq<ClaimEvent>, markets: Markets, size: nat,
          cycles: seq<CycleInput>)
    ensures var b := AfterCycles(Books(start, [], []), log, markets, size, cycles);
            && start <= b.cursor
            && Events(b.claims) == Kept(markets, Query(log, start + 1, b.cursor))
            && b.rewards == Users(b.claims)
            && |b.rewards| == |b.claims| && forall k :: 0 <= k < |b.claims| ==> b.rewards[k] == b.claims[k].user
    decreases |cycles|
  {
    if |cycles| == 0 {
    } else {
      ClaimsMirrorChain(start, log, markets, size, cycles[..|cycles| - 1]);
      StepMirrors(start, AfterCycles(Books(start, [], []), log, markets, size, cycles[..|cycles| - 1]), log, markets,
        size, cycles[|cycles| - 1]);
    }
  }

  lemma StepMirrors(start: int, b: Books, log: int -> seq<ClaimEvent>, markets: Markets, size: nat, c: CycleInput)
    requires start <= b.cursor && Events(b.claims) == Kept(markets, Query(log, start + 1, b.cursor))
             && b.rewards == Users(b.claims)
    ensures var next := Step(b, log, markets, size, c);
            && b.cursor <= next.cursor
            && Events(next.claims) == Kept(markets, Query(log, start + 1, next.cursor))
            && next.rewards == Users(next.claims)
  {
    hide Query, Kept, ClaimsOf, Events, Users;
    if Commits(b, log, markets, size, c) {
      var to := ToBlock(b.cursor, size, c.head);
      var window := Window(log, b.cursor, size, c.head);
      EventsOfClaims(markets, c.env, window);
      Joins(b.claims, ClaimsOf(markets, c.env, window));
      QueryJoin(log, start + 1, b.cursor, to);
      KeptJoin(markets, Query(log, start + 1, b.cursor), window);
    }
  }

  /** A redemption that stays blocked in every cycle stops the cursor before its block for good. */
  lemma {:induction false} BlockedStopsCursor(start: Books, log: int -> seq<ClaimEvent>, markets: Markets, size: nat,
                                              cycles: seq<CycleInput>, block: int, i: nat)
    requires start.cursor < block && i < |log(block)|
    requires forall k :: 0 <= k < |cycles| ==> Blocked(markets, cycles[k].env, log(block)[i])
    ensures AfterCycles(start, log, markets, size, cycles).cursor < block
    decreases |cycles|
  {
    if |cycles| == 0 {
    } else {
      BlockedStopsCursor(start, log, markets, size, cycles[..|cycles| - 1], block, i);
      var b := AfterCycles(start, log, markets, size, cycles[..|cycles| - 1]);
      var c := cycles[|cycles| - 1];
      if ToBlock(b.cursor, size, c.head) >= block {
        BlockedWindow(log, markets, c.env, b.cursor + 1, ToBlock(b.cursor, size, c.head), block, i);
      }
    }
  }

  lemma BlockedWindow(log: int -> seq<ClaimEvent>, markets: Markets, env: Lookups, from: int, to: int, block: int,
          i: nat)
    requires from <= block <= to && i < |log(block)| && Blocked(markets, env, log(block)[i])
    ensures !NoneBlocked(markets, env, Query(log, from, to))
  {
    var k := InQuery(log, from, to, block, i);
    assert Blocked(markets, env, Query(log, from, to)[k]);
  }

  lemma {:induction false} InQuery<E>(log: int -> seq<E>, from: int, to: int, block: int, i: nat) returns (k: nat)
    requires from <= block <= to && i < |log(block)|
    ensures k < |Query(log, from, to)| && Query(log, from, to)[k] == log(block)[i]
    decreases Gap(block, to)
  {
    if block == to {
      k := |Query(log, from, to - 1)| + i;
    } else {
      k := InQuery(log, from, to - 1, block, i);
    }
  }

  /** Without blocked redemptions and without faults the cursor runs to where the workers stop. */
  lemma {:induction false} UnblockedReachesTheHead(b: Books, log: int -> seq<ClaimEvent>, markets: Markets, size: nat,
          head: int, cycles: seq<CycleInput>)
    requires forall k :: 0 <= k < |cycles| ==> cycles[k].head == head && !cycles[k].fault
    requires forall k, block, i ::
             0 <= k < |cycles| && 0 <= i < |log(block)| ==> !Blocked(markets, cycles[k].env, log(block)[i])
    ensures AfterCycles(b, log, markets, size, cycles).cursor == WorkerAfter(b.cursor, size, head, |cycles|)
    decreases |cycles|
  {
    if |cycles| == 0 {
    } else {
      var init, c := cycles[..|cycles| - 1], cycles[|cycles| - 1];
      UnblockedReachesTheHead(b, log, markets, size, head, init);
      LastCycle(b.cursor, size, head, |init|);
      var before := AfterCycles(b, log, markets, size, init);
      UnblockedWindow(log, markets, c.env, before.cursor + 1, ToBlock(before.cursor, size, head));
    }
  }

  lemma {:induction false} UnblockedWindow(log: int -> seq<ClaimEvent>, markets: Markets, env: Lookups, from: int,
          to: int)
    requires forall block, i :: 0 <= i < |log(block)| ==> !Blocked(markets, env, log(block)[i])
    ensures NoneBlocked(markets, env, Query(log, from, to))
    decreases Gap(from, to + 1)
  {
    if to < from {
    } else {
      UnblockedWindow(log, markets, env, from, to - 1);
    }
  }

  lemma {:induction false} LastCycle(cursor: int, size: nat, head: int, n: nat)
    ensures var c := WorkerAfter(cursor, size, head, n);
            WorkerAfter(cursor, size, head, n + 1) == if WorkerAdvances(c, size, head) then ToBlock(c, size, head)
              else c
    decreases n
  {
    if n == 0 {
    } else {
      LastCycle(if WorkerAdvances(cursor, size, head) then ToBlock(cursor, size, head) else cursor, size, head, n - 1);
    }
  }
}

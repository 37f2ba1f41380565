/**
 The block windows of the event parsers. All of them read the events of an inclusive window that
 starts behind the cursor and then move the cursor to the window's last block. The market parser
 also takes a window of one block, the contract workers do not.
 */
module BlockCursor {

  /** The last block of the next window: `parseBlockSize` blocks after its first, capped at the head. */
  function ToBlock(cursor: int, size: nat, head: int): int {
    if cursor + 1 + size > head then head else cursor + 1 + size
  }

  predicate MarketAdvances(cursor: int, size: nat, head: int) {
    !(cursor + 1 > ToBlock(cursor, size, head))
  }

  predicate WorkerAdvances(cursor: int, size: nat, head: int) {
    !(cursor + 1 >= ToBlock(cursor, size, head))
  }

  /** The cursor after `n` successful cycles of the market parser with the head fixed. */
  function MarketAfter(cursor: int, size: nat, head: int, n: nat): int
    decreases n
  {
    if n == 0 then cursor
    else
      var next := if MarketAdvances(cursor, size, head) then ToBlock(cursor, size, head) else cursor;
      MarketAfter(next, size, head, n - 1)
  }

  /** The same for the claims, voting, factory and finalised parsers. */
  function WorkerAfter(cursor: int, size: nat, head: int, n: nat): int
    decreases n
  {
    if n == 0 then cursor
    else
      var next := if WorkerAdvances(cursor, size, head) then ToBlock(cursor, size, head) else cursor;
      WorkerAfter(next, size, head, n - 1)
  }

  /** Until the head is reached the distance shrinks with every cycle, and the cursor never passes it. */
  lemma {:induction false} MarketStopsAtHead(cursor: int, size: nat, head: int, n: nat)
    requires cursor <= head
    ensures cursor <= MarketAfter(cursor, size, head, n) <= head
    ensures n >= head - cursor ==> MarketAfter(cursor, size, head, n) == head
    ensures MarketAfter(cursor, size, head, n) < head ==> MarketAfter(cursor, size, head, n) >= cursor + n
    decreases n
  {
    if n == 0 {
    } else {
      var next := if MarketAdvances(cursor, size, head) then ToBlock(cursor, size, head) else cursor;
      MarketStopsAtHead(next, size, head, n - 1);
    }
  }

  lemma RemainderIs(z: int, d: nat, q: int, r: int)
    requires d > 0 && z == d * q + r && 0 <= r < d
    ensures z % d == r
  {
    var p, s := z / d, z % d;
    assert d * (q - p) == s - r;
    if q > p { Larger(d, q - p); } else if q < p { Smaller(d, q - p); }
  }

  lemma Larger(d: nat, k: int)
    requires k >= 1
    ensures d * k >= d
  {}

  lemma Smaller(d: nat, k: int)
    requires k <= -1
    ensures d * k + d <= 0
  {}

  lemma OneTurnLess(z: int, d: nat)
    requires d > 0
    ensures (z - d) % d == z % d
  {
    assert z == d * (z / d) + z % d;
    assert d * (z / d - 1) == d * (z / d) - d;
    RemainderIs(z - d, d, z / d - 1, z % d);
  }

  lemma SmallRemainder(z: int, d: nat)
    requires 0 <= z < d
    ensures z % d == z
  {
    RemainderIs(z, d, 0, z);
  }

  /** A contract worker stops one block short of the head exactly when the distance to that block is
      a multiple of the window length, and at the head otherwise; it never passes the head. */
  lemma {:induction false} WorkerStops(cursor: int, size: nat, head: int, n: nat)
    requires size >= 1 && cursor <= head && n >= head - cursor
    ensures WorkerAfter(cursor, size, head, n)
            == if cursor < head && (head - 1 - cursor) % (size + 1) == 0 then head - 1 else head
    decreases n
  {
    if cursor >= head - 1 {
      StaysPut(cursor, size, head, n);
      if cursor == head - 1 { SmallRemainder(0, size + 1); }
    } else {
      var to := ToBlock(cursor, size, head);
      WorkerStops(to, size, head, n - 1);
      if to == head {
        SmallRemainder(head - 1 - cursor, size + 1);
      } else {
        OneTurnLess(head - 1 - cursor, size + 1);
      }
    }
  }

  lemma {:induction false} StaysPut(cursor: int, size: nat, head: int, n: nat)
    requires !WorkerAdvances(cursor, size, head)
    ensures WorkerAfter(cursor, size, head, n) == cursor
    decreases n
  {
    if n == 0 {
    } else {
      StaysPut(cursor, size, head, n - 1);
    }
  }

  // ---------------------------------------------------------------- event queries

  /** The events that a query for the inclusive block range returns, in chain order. */
  function Query<E>(log: int -> seq<E>, from: int, to: int): seq<E>
    decreases to - from + 1
  {
    if from > to then [] else Query(log, from, to - 1) + log(to)
  }

  function Gap(a: int, b: int): nat {
    if a <= b then b - a else 0
  }

  /** Adjacent windows join without gap and without overlap. */
  lemma {:induction false} QueryJoin<E>(log: int -> seq<E>, from: int, mid: int, to: int)
    requires from - 1 <= mid <= to
    ensures Query(log, from, to) == Query(log, from, mid) + Query(log, mid + 1, to)
    decreases Gap(mid, to)
  {
    if mid == to {
      assert Query(log, mid + 1, to) == [];
    } else {
      QueryJoin(log, from, mid, to - 1);
      assert Query(log, from, to) == Query(log, from, mid) + (Query(log, mid + 1, to - 1) + log(to));
    }
  }

  /** A range is silent exactly when its query returns nothing. */
  lemma {:induction false} QueryEmpty<E>(log: int -> seq<E>, from: int, to: int)
    ensures Query(log, from, to) == [] <==> forall b :: from <= b <= to ==> log(b) == []
    decreases Gap(from, to + 1)
  {
    if to < from {
    } else {
      QueryEmpty(log, from, to - 1);
    }
  }
}

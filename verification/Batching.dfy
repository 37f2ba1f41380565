/**
 `runWithWorkers` and `splitArray` of src/lib/utils.ts: one cuts the work into batches with a nested
 index loop, the other takes chunks off the front of a copy.
 */
module Batching {

  /** The elements in groups of `n`; the last group may be shorter. */
  function Chunks<T>(data: seq<T>, n: nat): seq<seq<T>>
    requires n >= 1
  {
    if |data| <= n then if |data| == 0 then [] else [data]
    else [data[..n]] + Chunks(data[n..], n)
  }

  /** The batches whose tasks are awaited together. With no workers the outer loop would repeat the same
      index for ever, unless there is nothing to do. */
  method RunWithWorkers<T>(data: seq<T>, workerCount: nat) returns (batches: seq<seq<T>>)
    requires workerCount >= 1 || |data| == 0
    ensures |data| == 0 ==> batches == []
    ensures workerCount >= 1 ==> batches == Chunks(data, workerCount)
  {
    batches := [];
    var i: int := 0;
    while i < |data|
      invariant 0 <= i <= |data|
      invariant |data| == 0 ==> batches == []
      invariant workerCount >= 1 ==> batches + Chunks(data[i..], workerCount) == Chunks(data, workerCount)
      decreases |data| - i
    {
      ghost var start := i;
      var workers := [];
      var j := 0;
      while j < workerCount
        invariant 0 <= j <= workerCount && start <= i <= |data| && i == start + |workers|
        invariant |workers| == j && workers == data[start..i]
        invariant j > 0 ==> i > start
      {
        if i >= |data| { break; }
        workers := workers + [data[i]];
        i := i + 1;
        j := j + 1;
      }
      i := i - 1;
      if |workers| > 0 {
        FirstChunk(data, start, i + 1, workerCount);
        assert workers == data[start..i + 1];
        Regroup(batches, workers, Chunks(data[i + 1..], workerCount));
        batches := batches + [workers];
      }
      i := i + 1;
    }
    assert data[i..] == [];
  }

  lemma FirstChunk<T>(data: seq<T>, from: nat, to: nat, n: nat)
    requires n >= 1 && from < to <= |data| && (to - from == n || (to - from < n && to == |data|))
    ensures Chunks(data[from..], n) == [data[from..to]] + Chunks(data[to..], n)
  {
    var rest := data[from..];
    assert rest[..to - from] == data[from..to] && rest[to - from..] == data[to..];
    if to == |data| { assert data[to..] == [] && rest == data[from..to]; }
  }

  lemma Regroup<T>(x: seq<T>, y: T, z: seq<T>)
    ensures x + ([y] + z) == (x + [y]) + z
  {}

  method SplitArray<T>(arr: seq<T>, splitBy: nat) returns (cache: seq<seq<T>>)
    requires splitBy >= 1
    ensures cache == Chunks(arr, splitBy)
  {
    var tmp := arr;
    cache := [];
    while |tmp| > 0
      invariant cache + Chunks(tmp, splitBy) == Chunks(arr, splitBy)
    {
      var k := if splitBy < |tmp| then splitBy else |tmp|;
      FirstChunk(tmp, 0, k, splitBy);
      assert tmp[0..] == tmp;
      Regroup(cache, tmp[..k], Chunks(tmp[k..], splitBy));
      cache, tmp := cache + [tmp[..k]], tmp[k..];
    }
  }

  function Flatten<T>(parts: seq<seq<T>>): seq<T> {
    if |parts| == 0 then [] else parts[0] + Flatten(parts[1..])
  }

  /** Every element is in exactly one chunk, in order; no chunk is empty or too large and only the last
      one may be short. */
  lemma {:induction false} ChunksKeepAll<T>(data: seq<T>, n: nat)
    requires n >= 1
    ensures Flatten(Chunks(data, n)) == data
    ensures forall k :: 0 <= k < |Chunks(data, n)| ==>
              0 < |Chunks(data, n)[k]| <= n && (k < |Chunks(data, n)| - 1 ==> |Chunks(data, n)[k]| == n)
    decreases |data|
  {
    var chunks := Chunks(data, n);
    if |data| > n {
      var rest := Chunks(data[n..], n);
      ChunksKeepAll(data[n..], n);
      assert chunks[1..] == rest && data[..n] + data[n..] == data;
      forall k | 0 <= k < |chunks| ensures 0 < |chunks[k]| <= n && (k < |chunks| - 1 ==> |chunks[k]| == n) {
        if k > 0 { assert chunks[k] == rest[k - 1]; }
      }
    } else if |data| > 0 {
      assert chunks[1..] == [];
    }
  }

  /** The element at position `q * n + r` runs in batch `q` as its `r`-th task. */
  lemma {:induction false} ChunkOfElement<T>(data: seq<T>, n: nat, q: nat, r: nat)
    requires n >= 1 && r < n && Place(q, n, r) < |data|
    ensures var chunks := Chunks(data, n); q < |chunks| && r < |chunks[q]| && chunks[q][r] == data[Place(q, n, r)]
    decreases q
  {
    if q == 0 {
      PlaceOfFirst(n, r);
    } else {
      PlaceOfNext(q, n, r);
      ChunkOfElement(data[n..], n, q - 1, r);
    }
  }

  function Place(q: nat, n: nat, r: nat): nat {
    q * n + r
  }

  lemma PlaceOfFirst(n: nat, r: nat)
    ensures Place(0, n, r) == r
  {}

  lemma PlaceOfNext(q: nat, n: nat, r: nat)
    requires q > 0
    ensures Place(q, n, r) == Place(q - 1, n, r) + n && Place(q, n, r) >= n
  {
    assert q * n == (q - 1) * n + n;
  }
}

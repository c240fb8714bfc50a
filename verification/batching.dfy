/**
 How `processDomains` walks the domain list: consecutive batches of at most
 `parallelProcesses` domains, each batch launched and then joined before the
 next one starts. Only the index arithmetic is modelled; the goroutines
 that run the batch are not.
 */
module Batching {
  import Cli

  /** `min` of the program. */
  function Min(a: int, b: int): (m: int)
    ensures m <= a && m <= b
    ensures m == a || m == b
  {
    if a < b then a else b
  }

  /** The elements of the batches, batch after batch. */
  function Flatten<T>(batches: seq<seq<T>>): seq<T>
  {
    if batches == [] then [] else batches[0] + Flatten(batches[1..])
  }

  lemma {:induction false} FlattenAppend<T>(a: seq<seq<T>>, b: seq<seq<T>>)
    ensures Flatten(a + b) == Flatten(a) + Flatten(b)
    decreases |a|
  {
    if a == [] {
      assert a + b == b;
    } else {
      assert (a + b)[1..] == a[1..] + b;
      FlattenAppend(a[1..], b);
    }
  }

  /**
   The batches the outer loop forms from index `i` on, stepping by `p`: the
   batch at `i` has `min(p, len - i)` domains. One after another they are
   exactly the domains from `i` on.
   */
  function BatchesFrom(domains: seq<string>, p: int, i: nat): (r: seq<seq<string>>)
    requires p >= 1
    ensures i <= |domains| ==> Flatten(r) == domains[i..]
    decreases |domains| - i
  {
    if i >= |domains| then []
    else
      var size := Min(p, |domains| - i);
      var rest := BatchesFrom(domains, p, i + p);
      assert i + p <= |domains| ==> domains[i..] == domains[i..i + size] + domains[i + p..];
      [domains[i..i + size]] + rest
  }

  /**
   Every batch is non-empty and holds at most `p` domains, and every batch
   but the last holds exactly `p`.
   */
  lemma {:induction false} BatchesFromSizes(domains: seq<string>, p: int, i: nat)
    requires p >= 1
    ensures forall k | 0 <= k < |BatchesFrom(domains, p, i)| :: 0 < |BatchesFrom(domains, p, i)[k]| <= p
    ensures forall k | 0 <= k < |BatchesFrom(domains, p, i)| - 1 :: |BatchesFrom(domains, p, i)[k]| == p
    decreases |domains| - i
  {
    if i < |domains| {
      BatchesFromSizes(domains, p, i + p);
      var r := BatchesFrom(domains, p, i);
      var rest := BatchesFrom(domains, p, i + p);
      assert r == [r[0]] + rest;
      assert |r[0]| == Min(p, |domains| - i);
      if rest != [] {
        assert i + p < |domains|;
      }
      forall k | 0 <= k < |r|
        ensures 0 < |r[k]| <= p
        ensures k < |r| - 1 ==> |r[k]| == p
      {
        if k > 0 {
          assert r[k] == rest[k - 1];
          assert 0 < |rest[k - 1]| <= p;
        } else {
          assert 0 < |r[0]|;
          assert |r[0]| <= p;
        }
      }
    }
  }

  function Batches(domains: seq<string>, p: int): seq<seq<string>>
    requires p >= 1
  {
    BatchesFrom(domains, p, 0)
  }

  /**
   The batches partition the list: concatenated they give the domain list
   back, so every domain is dispatched exactly once and in list order, and
   no batch has more than `p` domains, so at most `p` run at a time.
   */
  lemma BatchesPartition(domains: seq<string>, p: int)
    requires p >= 1
    ensures Flatten(Batches(domains, p)) == domains
    ensures forall k | 0 <= k < |Batches(domains, p)| :: 0 < |Batches(domains, p)[k]| <= p
  {
    assert domains[0..] == domains;
    BatchesFromSizes(domains, p, 0);
  }

  /**
   Batch `k` from index `i` starts at `i + k * p` and runs for
   `min(p, len - (i + k * p))` domains.
   */
  lemma {:induction false} BatchesFromPositions(domains: seq<string>, p: int, i: nat, k: nat)
    requires p >= 1
    requires k < |BatchesFrom(domains, p, i)|
    ensures i + k * p < |domains|
    ensures BatchesFrom(domains, p, i)[k] == domains[i + k * p..i + k * p + Min(p, |domains| - (i + k * p))]
    decreases k
  {
    if k > 0 {
      assert i + p + (k - 1) * p == i + k * p by {
        assert (k - 1) * p == k * p - p;
      }
      var rest := BatchesFrom(domains, p, i + p);
      assert BatchesFrom(domains, p, i)[k] == rest[k - 1];
      BatchesFromPositions(domains, p, i + p, k - 1);
    }
  }

  /** The outer loop of `processDomains` between turns: its index and the batches launched so far. */
  datatype LoopState = LoopState(index: nat, waves: seq<seq<string>>)

  /**
   At most `n` turns of the outer loop from index `i`, as written, for a
   parallelism `p` that `make` accepted: each turn launches the
   `min(p, len - i)` domains from `i`, waits for them, and adds `p` to the
   index. The loop leaves only at the end of the list or when the turns run
   out, and what it has launched is exactly the domains before its index.
   */
  function Turns(domains: seq<string>, p: nat, i: nat, n: nat): (s: LoopState)
    ensures i <= s.index
    ensures s.index >= |domains| || |s.waves| == n
    ensures i <= |domains| ==> Flatten(s.waves) == domains[i..Min(s.index, |domains|)]
    decreases n
  {
    if n == 0 || i >= |domains| then LoopState(i, [])
    else
      var wave := domains[i..i + Min(p, |domains| - i)];
      var rest := Turns(domains, p, i + p, n - 1);
      assert ([wave] + rest.waves)[1..] == rest.waves;
      assert i + p <= |domains| ==>
        domains[i..Min(rest.index, |domains|)] == wave + domains[i + p..Min(rest.index, |domains|)];
      LoopState(rest.index, [wave] + rest.waves)
  }

  /**
   `-p 0` on a non-empty list: however many turns the loop takes, its index
   stays at 0, so the loop condition `i < len(domains)` still holds, and
   every turn launched an empty batch.
   */
  lemma {:induction false} ZeroParallelismSpins(domains: seq<string>, n: nat)
    requires |domains| > 0
    ensures Turns(domains, 0, 0, n).index == 0 < |domains|
    ensures |Turns(domains, 0, 0, n).waves| == n
    ensures forall k | 0 <= k < n :: Turns(domains, 0, 0, n).waves[k] == []
    decreases n
  {
    if n > 0 {
      ZeroParallelismSpins(domains, n - 1);
      var rest := Turns(domains, 0, 0, n - 1);
      var waves := Turns(domains, 0, 0, n).waves;
      assert waves == [domains[0..0]] + rest.waves;
      forall k | 0 <= k < n
        ensures waves[k] == []
      {
        if k > 0 {
          assert waves[k] == rest.waves[k - 1];
        }
      }
    }
  }

  /**
   With parallelism at least one the loop ends: enough turns reach the end
   of the list, having launched exactly the batches of `BatchesFrom`.
   */
  lemma {:induction false} TurnsReachBatches(domains: seq<string>, p: nat, i: nat, n: nat)
    requires p >= 1 && |domains| - i <= n
    ensures Turns(domains, p, i, n).index >= |domains|
    ensures Turns(domains, p, i, n).waves == BatchesFrom(domains, p, i)
    decreases n
  {
    if i < |domains| {
      TurnsReachBatches(domains, p, i + p, n - 1);
    }
  }

  /** What the outer loop of `processDomains` does with a given parallelism. */
  datatype Schedule =
    | Waves(batches: seq<seq<string>>)   // launched and joined batch by batch
    | SpinsForever                        // `i += 0` never leaves the loop
    | Panics                              // `make(chan struct{}, p)` with negative `p`

  /**
   The schedule as written. A negative parallelism panics when the
   semaphore is made. Zero on a non-empty list never leaves the loop: after
   any number of turns the index is still inside the list. Any other value
   ends with the batches the turns launched, which partition the list into
   batches of 1 to `p` domains.
   */
  function ScheduleAsWritten(domains: seq<string>, p: int): (s: Schedule)
    ensures s.Panics? <==> p < 0
    ensures s.SpinsForever? <==> p == 0 && |domains| > 0
    ensures s.SpinsForever? ==> forall n: nat :: Turns(domains, 0, 0, n).index < |domains|
    ensures s.Waves? ==> p >= 0 && s.batches == Turns(domains, p, 0, |domains|).waves
    ensures s.Waves? ==> Flatten(s.batches) == domains
    ensures s.Waves? ==> forall k | 0 <= k < |s.batches| :: 0 < |s.batches[k]| <= p
  {
    if p < 0 then Panics
    else if p == 0 then
      if |domains| == 0 then Waves([])
      else
        assert forall n: nat :: Turns(domains, 0, 0, n).index < |domains| by {
          forall n: nat
            ensures Turns(domains, 0, 0, n).index < |domains|
          {
            ZeroParallelismSpins(domains, n);
          }
        }
        SpinsForever
    else
      BatchesPartition(domains, p);
      TurnsReachBatches(domains, p, 0, |domains|);
      Waves(Batches(domains, p))
  }

  /** Parallelism below one falls back to the default, as an unreadable `-p` value does. */
  function EffectiveParallelism(p: int): (q: int)
    ensures q >= 1
    ensures p >= 1 ==> q == p
  {
    if p >= 1 then p else Cli.DefaultParallelism
  }

  /** The schedule with parallelism below one replaced by the default. */
  function ScheduleGuarded(domains: seq<string>, p: int): Schedule
  {
    ScheduleAsWritten(domains, EffectiveParallelism(p))
  }

  /**
   With the guard every parallelism yields batches that dispatch each
   domain exactly once, in order, and at most `EffectiveParallelism(p)` at a
   time.
   */
  lemma GuardedScheduleDispatchesAll(domains: seq<string>, p: int)
    ensures ScheduleGuarded(domains, p).Waves?
    ensures Flatten(ScheduleGuarded(domains, p).batches) == domains
    ensures var b := ScheduleGuarded(domains, p).batches;
      forall k | 0 <= k < |b| :: 0 < |b[k]| <= EffectiveParallelism(p)
  {
    BatchesPartition(domains, EffectiveParallelism(p));
  }

  /** One turn of the outer loop keeps its invariant: the batches so far, then the rest. */
  lemma DispatchStep(domains: seq<string>, p: int, i: nat, waves: seq<seq<string>>, wave: seq<string>)
    requires p >= 1 && i < |domains|
    requires waves + BatchesFrom(domains, p, i) == Batches(domains, p)
    requires wave == domains[i..i + Min(p, |domains| - i)]
    ensures (waves + [wave]) + BatchesFrom(domains, p, i + p) == Batches(domains, p)
  {
    assert BatchesFrom(domains, p, i) == [wave] + BatchesFrom(domains, p, i + p);
    assert (waves + [wave]) + BatchesFrom(domains, p, i + p) == waves + ([wave] + BatchesFrom(domains, p, i + p));
  }

  /** The inner loop of `processDomains`: the domains launched for the batch at `i`. */
  method LaunchBatch(domains: seq<string>, i: nat, batchSize: nat) returns (wave: seq<string>)
    requires i + batchSize <= |domains|
    ensures wave == domains[i..i + batchSize]
  {
    wave := [];
    var j := 0;
    while j < batchSize
      invariant j <= batchSize
      invariant wave == domains[i..i + j]
    {
      wave := wave + [domains[i + j]];
      j := j + 1;
    }
  }

  /**
   The two loops of `processDomains` as written, recording each batch of
   launched domains (one `wg.Wait()` each). Before each turn the domains
   launched so far are exactly those before the index.
   */
  method Dispatch(domains: seq<string>, p: int) returns (waves: seq<seq<string>>)
    requires p >= 1
    ensures waves == Batches(domains, p)
    ensures Flatten(waves) == domains
  {
    waves := [];
    var i: nat := 0;
    while i < |domains|
      invariant waves + BatchesFrom(domains, p, i) == Batches(domains, p)
      invariant Flatten(waves) == domains[..Min(i, |domains|)]
      decreases |domains| - i
    {
      var before := i;
      waves, i := DispatchBatch(domains, p, i, waves);
      PrefixThenSlice(domains, before, Min(i, |domains|));
    }
    DispatchDone(domains, p, i, waves);
  }

  /**
   One turn of the outer loop: launch the batch at `i` and wait for it. The
   launched domains grow by exactly the domains from `i` to the next index.
   */
  method DispatchBatch(domains: seq<string>, p: int, i: nat, waves: seq<seq<string>>)
    returns (waves': seq<seq<string>>, next: nat)
    requires p >= 1 && i < |domains|
    requires waves + BatchesFrom(domains, p, i) == Batches(domains, p)
    ensures next == i + p
    ensures waves' + BatchesFrom(domains, p, next) == Batches(domains, p)
    ensures Flatten(waves') == Flatten(waves) + domains[i..Min(next, |domains|)]
  {
    var batchSize := Min(p, |domains| - i);
    var wave := LaunchBatch(domains, i, batchSize);
    DispatchStep(domains, p, i, waves, wave);
    waves' := waves + [wave];
    next := i + p;
    assert Min(next, |domains|) == i + batchSize;
    FlattenSnoc(waves, wave);
  }

  /** Adding a batch at the end adds its domains at the end. */
  lemma FlattenSnoc<T>(batches: seq<seq<T>>, batch: seq<T>)
    ensures Flatten(batches + [batch]) == Flatten(batches) + batch
  {
    FlattenAppend(batches, [batch]);
    assert Flatten([batch]) == batch + Flatten([]);
  }

  /** The domains before `i` followed by those from `i` to `j` are the domains before `j`. */
  lemma PrefixThenSlice(domains: seq<string>, i: nat, j: nat)
    requires i <= j <= |domains|
    ensures domains[..i] + domains[i..j] == domains[..j]
  {
  }

  /** When the index has passed the end, the batches so far are all of them. */
  lemma DispatchDone(domains: seq<string>, p: int, i: nat, waves: seq<seq<string>>)
    requires p >= 1 && i >= |domains|
    requires waves + BatchesFrom(domains, p, i) == Batches(domains, p)
    ensures waves == Batches(domains, p)
    ensures Flatten(waves) == domains
  {
    assert waves + [] == waves;
    BatchesPartition(domains, p);
  }
}

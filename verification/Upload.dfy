/**
 Uploading cached metrics in batches: the agent's pass, which stops at the first failure, and
 the request queue's pass, which carries on. The server's answers are arbitrary.
 */
module Upload {
  import opened Clock
  import opened Sequences
  import M = CacheModel
  import opened MemoryCache

  /** What is sent of a measurement. */
  datatype Snapshot = Snapshot(
    timestamp: Time,
    cpuUsagePercent: real,
    memoryTotal: nat,
    memoryUsed: nat,
    memoryAvailable: nat,
    memoryUsagePercent: real,
    diskTotalBytes: nat,
    diskUsedBytes: nat,
    diskFreeBytes: nat,
    diskUsagePercent: real,
    networkBytesReceived: nat,
    networkBytesSent: nat)

  function ToSnapshot(m: M.Metrics): Snapshot
  {
    Snapshot(m.timestamp, m.cpuUsagePercent,
             m.memoryTotal, m.memoryUsed, m.memoryAvailable, m.memoryUsagePercent,
             m.diskTotalBytes, m.diskUsedBytes, m.diskFreeBytes, m.diskUsagePercent,
             m.networkBytesReceived, m.networkBytesSent)
  }

  function Unsynced(ms: seq<M.Metrics>): seq<M.Metrics>
  {
    Filter(ms, (m: M.Metrics) => !m.synced)
  }

  /** The snapshots a pass over a window has to send, in order. */
  function ToSend(ms: seq<M.Metrics>, start: Time, end: Time): seq<Snapshot>
  {
    Map(Unsynced(M.Window(ms, start, end)), ToSnapshot)
  }

  /** What a pass has to send are the unsynced measurements of its window, in order, each with
      every one of its readings. */
  lemma DueFieldByField(ms: seq<M.Metrics>, start: Time, end: Time)
    ensures var due, from := ToSend(ms, start, end), Unsynced(M.Window(ms, start, end));
            && |due| == |from|
            && (forall m :: m in from <==> m in ms && !m.synced && start <= m.timestamp <= end)
            && forall i :: 0 <= i < |due| ==>
                 && due[i].timestamp == from[i].timestamp
                 && due[i].cpuUsagePercent == from[i].cpuUsagePercent
                 && due[i].memoryTotal == from[i].memoryTotal
                 && due[i].memoryUsed == from[i].memoryUsed
                 && due[i].memoryAvailable == from[i].memoryAvailable
                 && due[i].memoryUsagePercent == from[i].memoryUsagePercent
                 && due[i].diskTotalBytes == from[i].diskTotalBytes
                 && due[i].diskUsedBytes == from[i].diskUsedBytes
                 && due[i].diskFreeBytes == from[i].diskFreeBytes
                 && due[i].diskUsagePercent == from[i].diskUsagePercent
                 && due[i].networkBytesReceived == from[i].networkBytesReceived
                 && due[i].networkBytesSent == from[i].networkBytesSent
  {
    forall m ensures m in Unsynced(M.Window(ms, start, end)) <==> m in ms && !m.synced && start <= m.timestamp <= end {
      FilterMember(M.Window(ms, start, end), (m: M.Metrics) => !m.synced, m);
      M.WindowMember(ms, start, end, m);
    }
  }

  // ---------- Batches ----------

  /** Consecutive pieces of length `n`, the last one possibly shorter. */
  function Batches<T>(xs: seq<T>, n: int): seq<seq<T>>
    requires 0 < n
  {
    if xs == [] then [] else [xs[..Min(n, |xs|)]] + Batches(xs[Min(n, |xs|)..], n)
  }

  /** The batches partition the list: they concatenate to it, none is empty or too long, only
      the last may be short, and there are as few of them as the size allows. */
  lemma {:induction false} BatchesPartition<T>(xs: seq<T>, n: int)
    requires 0 < n
    ensures var batches := Batches(xs, n);
            && Flatten(batches) == xs
            && (forall i :: 0 <= i < |batches| ==> 0 < |batches[i]| <= n)
            && (forall i :: 0 <= i < |batches| - 1 ==> |batches[i]| == n)
            && n * (|batches| - 1) < |xs| + (if xs == [] then 1 else 0)
            && |xs| <= n * |batches|
  {
    if xs != [] {
      var k := Min(n, |xs|);
      var rest := Batches(xs[k..], n);
      BatchesPartition(xs[k..], n);
      assert Batches(xs, n) == [xs[..k]] + rest;
      assert Flatten([xs[..k]] + rest) == xs by {
        assert ([xs[..k]] + rest)[1..] == rest;
        assert xs == xs[..k] + xs[k..];
      }
      OneMoreBatch(n, |rest|);
    }
  }

  lemma OneMoreBatch(n: int, count: nat)
    ensures n * (count + 1) == n * count + n && n * (count - 1) == n * count - n
  {
  }

  // ---------- The server ----------

  /** One upload request and whether it succeeded. */
  datatype Attempt = Attempt(batch: seq<Snapshot>, ok: bool)

  class ApiClient {
    /** Every upload request made, in order. */
    var attempts: seq<Attempt>

    constructor ()
      ensures attempts == []
    {
      attempts := [];
    }

    /** The answer is not under the program's control. */
    method UploadMetrics(batch: seq<Snapshot>) returns (ok: bool)
      modifies this
      ensures attempts == old(attempts) + [Attempt(batch, ok)]
    {
      ok := *;
      attempts := attempts + [Attempt(batch, ok)];
    }
  }

  function Delivered(a: Attempt): seq<Snapshot>
  {
    if a.ok then a.batch else []
  }

  /** The snapshots of the successful requests. */
  function Sent(attempts: seq<Attempt>): seq<Snapshot>
  {
    Flatten(Map(attempts, Delivered))
  }

  function BatchesOf(attempts: seq<Attempt>): seq<seq<Snapshot>>
  {
    Map(attempts, (a: Attempt) => a.batch)
  }

  /** The agent's pass: a prefix of the batches, every request but the last successful, and
      success overall exactly when every batch was requested and succeeded. */
  ghost predicate StopsAtFirstFailure(batches: seq<seq<Snapshot>>, made: seq<Attempt>, ok: bool)
  {
    && BatchesOf(made) <= batches
    && (forall i :: 0 <= i < |made| - 1 ==> made[i].ok)
    && (ok ==> |made| == |batches| && forall i :: 0 <= i < |made| ==> made[i].ok)
    && (!ok ==> made != [] && !made[|made| - 1].ok)
  }

  lemma SentWhenAllOk(made: seq<Attempt>)
    requires forall i :: 0 <= i < |made| ==> made[i].ok
    ensures Sent(made) == Flatten(BatchesOf(made))
  {
    assert Map(made, Delivered) == BatchesOf(made);
  }

  lemma SentAfterFailure(made: seq<Attempt>, last: Attempt)
    requires !last.ok
    ensures Sent(made + [last]) == Sent(made)
  {
    assert Map(made + [last], Delivered) == Map(made, Delivered) + [[]];
    FlattenConcat(Map(made, Delivered), [[]]);
  }

  /** What the agent's pass has sent is a prefix of what it had to send, ending at a batch
      boundary, and is everything exactly when the pass succeeded. */
  lemma AgentSendsAPrefix(xs: seq<Snapshot>, n: int, made: seq<Attempt>, ok: bool)
    requires 0 < n && StopsAtFirstFailure(Batches(xs, n), made, ok)
    ensures exists k: nat :: k <= |Batches(xs, n)| && Sent(made) == Flatten(Batches(xs, n)[..k])
    ensures Sent(made) <= xs
    ensures ok <==> Sent(made) == xs
  {
    var batches := Batches(xs, n);
    BatchesPartition(xs, n);
    var good := if ok then made else made[..|made| - 1];
    SentWhenAllOk(good);
    assert BatchesOf(good) == batches[..|good|];
    FlattenSplit(batches, |good|);
    if !ok {
      assert made == good + [made[|made| - 1]];
      SentAfterFailure(good, made[|made| - 1]);
    }
  }

  /** The first batches hold a prefix of the list, and less than all of it if any are left. */
  lemma FlattenSplit<T>(batches: seq<seq<T>>, k: nat)
    requires k <= |batches| && forall i :: 0 <= i < |batches| ==> batches[i] != []
    ensures Flatten(batches[..k]) <= Flatten(batches)
    ensures Flatten(batches[..k]) == Flatten(batches) <==> k == |batches|
  {
    assert batches == batches[..k] + batches[k..];
    FlattenConcat(batches[..k], batches[k..]);
    FlattenLonger(batches[k..]);
  }

  /** What the queue's pass attempts is every snapshot once, in order. */
  lemma QueueAttemptsEverySnapshotOnce(xs: seq<Snapshot>, n: int, made: seq<Attempt>)
    requires 0 < n && BatchesOf(made) == Batches(xs, n)
    ensures Flatten(BatchesOf(made)) == xs
    ensures (forall a :: a in made ==> a.ok) ==> Sent(made) == xs
  {
    BatchesPartition(xs, n);
    if forall a :: a in made ==> a.ok {
      SentWhenAllOk(made);
    }
  }

  // ---------- The loops ----------

  /** The filter loop both passes start with. */
  method FilterUnsynced(cells: seq<MetricsCell>) returns (unsynced: seq<MetricsCell>)
    ensures Values(unsynced) == Unsynced(Values(cells))
    ensures forall m :: m in Values(unsynced) <==> m in Values(cells) && !m.synced
  {
    unsynced := [];
    for i := 0 to |cells|
      invariant Values(unsynced) == Unsynced(Values(cells[..i]))
    {
      assert Values(cells[..i + 1]) == Values(cells[..i]) + [cells[i].v];
      FilterSnoc(Values(cells[..i]), cells[i].v, (m: M.Metrics) => !m.synced);
      if !cells[i].v.synced {
        assert Values(unsynced + [cells[i]]) == Values(unsynced) + [cells[i].v];
        unsynced := unsynced + [cells[i]];
      }
    }
    assert cells[..|cells|] == cells;
    forall m ensures m in Values(unsynced) <==> m in Values(cells) && !m.synced {
      FilterMember(Values(cells), (m: M.Metrics) => !m.synced, m);
    }
  }

  /** The conversion loop. */
  method Convert(cells: seq<MetricsCell>) returns (snapshots: seq<Snapshot>)
    ensures snapshots == Map(Values(cells), ToSnapshot)
    ensures |snapshots| == |cells|
    ensures forall j :: 0 <= j < |cells| ==>
              && snapshots[j].timestamp == cells[j].v.timestamp
              && snapshots[j].cpuUsagePercent == cells[j].v.cpuUsagePercent
              && snapshots[j].memoryTotal == cells[j].v.memoryTotal
              && snapshots[j].memoryUsed == cells[j].v.memoryUsed
              && snapshots[j].memoryAvailable == cells[j].v.memoryAvailable
              && snapshots[j].memoryUsagePercent == cells[j].v.memoryUsagePercent
              && snapshots[j].diskTotalBytes == cells[j].v.diskTotalBytes
              && snapshots[j].diskUsedBytes == cells[j].v.diskUsedBytes
              && snapshots[j].diskFreeBytes == cells[j].v.diskFreeBytes
              && snapshots[j].diskUsagePercent == cells[j].v.diskUsagePercent
              && snapshots[j].networkBytesReceived == cells[j].v.networkBytesReceived
              && snapshots[j].networkBytesSent == cells[j].v.networkBytesSent
  {
    snapshots := [];
    for i := 0 to |cells|
      invariant |snapshots| == i
      invariant forall j :: 0 <= j < i ==> snapshots[j] == ToSnapshot(cells[j].v)
    {
      var m := cells[i].v;
      snapshots := snapshots + [Snapshot(
          timestamp := m.timestamp,
          cpuUsagePercent := m.cpuUsagePercent,
          memoryTotal := m.memoryTotal,
          memoryUsed := m.memoryUsed,
          memoryAvailable := m.memoryAvailable,
          memoryUsagePercent := m.memoryUsagePercent,
          diskTotalBytes := m.diskTotalBytes,
          diskUsedBytes := m.diskUsedBytes,
          diskFreeBytes := m.diskFreeBytes,
          diskUsagePercent := m.diskUsagePercent,
          networkBytesReceived := m.networkBytesReceived,
          networkBytesSent := m.networkBytesSent)];
    }
  }

  const AGENT_WINDOW := DAY
  const QUEUE_WINDOW := 7 * DAY
  const QUEUE_BATCH_SIZE := 100

  /** What a batch loop has done when it is at index `i` of the list. */
  ghost predicate BatchedUpTo(xs: seq<Snapshot>, i: nat, n: int, made: seq<Attempt>)
    requires 0 < n
  {
    Batches(xs, n) == BatchesOf(made) + Batches(xs[Min(i, |xs|)..], n)
  }

  lemma BatchesFrom<T>(xs: seq<T>, i: nat, n: int)
    requires 0 < n && i < |xs|
    ensures var end := Min(i + n, |xs|);
            Batches(xs[i..], n) == [xs[i..end]] + Batches(xs[end..], n)
  {
    var end := Min(i + n, |xs|);
    assert xs[i..][..end - i] == xs[i..end];
    assert xs[i..][end - i..] == xs[end..];
  }

  lemma Reassociate<T>(a: seq<T>, b: T, c: seq<T>)
    ensures a + ([b] + c) == (a + [b]) + c
    ensures a + [b] <= a + ([b] + c)
  {
  }

  lemma NextBatch(xs: seq<Snapshot>, i: nat, n: int, made: seq<Attempt>, ok: bool)
    requires 0 < n && i < |xs| && BatchedUpTo(xs, i, n, made)
    ensures var next := made + [Attempt(xs[i..Min(i + n, |xs|)], ok)];
            BatchedUpTo(xs, i + n, n, next) && BatchesOf(next) <= Batches(xs, n)
  {
    var end := Min(i + n, |xs|);
    var next := made + [Attempt(xs[i..end], ok)];
    var rest := Batches(xs[end..], n);
    BatchesFrom(xs, i, n);
    Reassociate(BatchesOf(made), xs[i..end], rest);
    assert BatchesOf(next) == BatchesOf(made) + [xs[i..end]];
  }

  /** The agent's pass over the last 24 hours. */
  method UploadMetrics(cache: MemoryCache, client: ApiClient, endTime: Time, batchSize: int) returns (ok: bool)
    requires 0 < batchSize
    modifies client
    ensures old(client.attempts) <= client.attempts
    ensures StopsAtFirstFailure(
                Batches(ToSend(Values(cache.metrics), endTime - DAY, endTime), batchSize),
                client.attempts[|old(client.attempts)|..], ok)
  {
    var cachedMetrics := cache.GetMetrics(endTime - AGENT_WINDOW, endTime);
    if |cachedMetrics| == 0 {
      return true;
    }
    var unsynced := FilterUnsynced(cachedMetrics);
    if |unsynced| == 0 {
      return true;
    }
    var apiMetrics := Convert(unsynced);
    ok := UploadInBatches(client, apiMetrics, batchSize);
  }

  /** The batch loop of the agent's pass. */
  method UploadInBatches(client: ApiClient, apiMetrics: seq<Snapshot>, batchSize: int) returns (ok: bool)
    requires 0 < batchSize
    modifies client
    ensures old(client.attempts) <= client.attempts
    ensures StopsAtFirstFailure(Batches(apiMetrics, batchSize), client.attempts[|old(client.attempts)|..], ok)
  {
    ghost var made: seq<Attempt> := [];
    var i := 0;
    while i < |apiMetrics|
      invariant 0 <= i
      invariant client.attempts == old(client.attempts) + made
      invariant BatchedUpTo(apiMetrics, i, batchSize, made)
      invariant forall j :: 0 <= j < |made| ==> made[j].ok
    {
      var end := i + batchSize;
      if end > |apiMetrics| {
        end := |apiMetrics|;
      }
      var batch := apiMetrics[i..end];
      var sent := client.UploadMetrics(batch);
      NextBatch(apiMetrics, i, batchSize, made, sent);
      made := made + [Attempt(batch, sent)];
      assert client.attempts[|old(client.attempts)|..] == made;
      if !sent {
        return false;
      }
      i := i + batchSize;
    }
    assert client.attempts[|old(client.attempts)|..] == made;
    return true;
  }

  lemma ConvertedSlice(cells: seq<MetricsCell>, i: nat, j: nat)
    requires i <= j <= |cells|
    ensures Map(Values(cells[i..j]), ToSnapshot) == Map(Values(cells), ToSnapshot)[i..j]
  {
  }

  /** The queue's pass over the last seven days. */
  method UploadPendingMetrics(cache: MemoryCache, client: ApiClient, endTime: Time)
    modifies client
    ensures old(client.attempts) <= client.attempts
    ensures BatchesOf(client.attempts[|old(client.attempts)|..])
         == Batches(ToSend(Values(cache.metrics), endTime - 7 * DAY, endTime), 100)
  {
    var metrics := cache.GetMetrics(endTime - QUEUE_WINDOW, endTime);
    var unsynced := FilterUnsynced(metrics);
    if |unsynced| == 0 {
      return;
    }
    UploadEveryBatch(client, unsynced);
  }

  /** The batch loop of the queue's pass. */
  method UploadEveryBatch(client: ApiClient, unsynced: seq<MetricsCell>)
    modifies client
    ensures old(client.attempts) <= client.attempts
    ensures BatchesOf(client.attempts[|old(client.attempts)|..])
         == Batches(Map(Values(unsynced), ToSnapshot), QUEUE_BATCH_SIZE)
  {
    var batchSize := QUEUE_BATCH_SIZE;
    ghost var snapshots := Map(Values(unsynced), ToSnapshot);
    ghost var made: seq<Attempt> := [];
    var i := 0;
    while i < |unsynced|
      invariant 0 <= i
      invariant client.attempts == old(client.attempts) + made
      invariant BatchedUpTo(snapshots, i, batchSize, made)
    {
      var end := i + batchSize;
      if end > |unsynced| {
        end := |unsynced|;
      }
      var batch := unsynced[i..end];
      var ok := UploadMetricsBatch(client, batch);
      ConvertedSlice(unsynced, i, end);
      NextBatch(snapshots, i, batchSize, made, ok);
      made := made + [Attempt(snapshots[i..end], ok)];
      i := i + batchSize;
    }
  }

  method UploadMetricsBatch(client: ApiClient, metrics: seq<MetricsCell>) returns (ok: bool)
    modifies client
    ensures client.attempts == old(client.attempts) + [Attempt(Map(Values(metrics), ToSnapshot), ok)]
  {
    var snapshots := Convert(metrics);
    ok := client.UploadMetrics(snapshots);
  }
}

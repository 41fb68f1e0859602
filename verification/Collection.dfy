/**
 The collection cycle: four collectors fill a shared buffer, the buffer's object is copied,
 the copy goes to the cache, and the object goes back to a pool from which the next buffer
 object may come. Copies already handed out are never touched again.
 */
module Collection {
  import opened Clock
  import opened Wrappers
  import M = CacheModel
  import opened MemoryCache

  const ZERO := M.Metrics(0, 0, "", 0.0, 0, 0, 0, 0.0, 0, 0, 0, 0.0, 0, 0, false)

  datatype Collector = Cpu | Memory | Disk | Network

  datatype MemoryReading = MemoryReading(total: nat, used: nat, available: nat, percent: real)
  datatype DiskReading = DiskReading(total: nat, used: nat, free: nat, percent: real)
  datatype NetworkReading = NetworkReading(received: nat, sent: nat)

  /** What the collectors of one cycle obtain; `None` for one that fails or is disabled. */
  datatype Readings = Readings(
    cpu: Option<real>,
    memory: Option<MemoryReading>,
    disk: Option<DiskReading>,
    network: Option<NetworkReading>)

  /** One cycle: the readings, the finalizing clock reading and those made while storing. */
  datatype Cycle = Cycle(readings: Readings, finalized: Time, since: Time, now: Time, after: Time)

  /** The reference: the measurement some of the collectors make up. */
  function Measured(r: Readings, done: set<Collector>): M.Metrics
  {
    var v := ZERO;
    var v := if Cpu in done && r.cpu.Some? then v.(cpuUsagePercent := r.cpu.value) else v;
    var v := if Memory in done && r.memory.Some? then
               v.(memoryTotal := r.memory.value.total, memoryUsed := r.memory.value.used,
                  memoryAvailable := r.memory.value.available, memoryUsagePercent := r.memory.value.percent)
             else v;
    var v := if Disk in done && r.disk.Some? then
               v.(diskTotalBytes := r.disk.value.total, diskUsedBytes := r.disk.value.used,
                  diskFreeBytes := r.disk.value.free, diskUsagePercent := r.disk.value.percent)
             else v;
    if Network in done && r.network.Some? then
      v.(networkBytesReceived := r.network.value.received, networkBytesSent := r.network.value.sent)
    else v
  }

  const ALL := {Cpu, Memory, Disk, Network}

  /** The snapshot a cycle produces. */
  function SnapshotOf(c: Cycle, clientID: string): M.Metrics
  {
    Measured(c.readings, ALL).(timestamp := c.finalized, clientID := clientID)
  }

  /** Reading by reading: a cycle's snapshot has what its collectors obtained, zeros for those
      that failed, the time and client it was finalized with, no number, and is not synced. */
  lemma SnapshotFieldByField(c: Cycle, clientID: string)
    ensures var v, r := SnapshotOf(c, clientID), c.readings;
            && v.id == 0 && v.timestamp == c.finalized && v.clientID == clientID && !v.synced
            && v.cpuUsagePercent == (if r.cpu.Some? then r.cpu.value else 0.0)
            && v.memoryTotal == (if r.memory.Some? then r.memory.value.total else 0)
            && v.memoryUsed == (if r.memory.Some? then r.memory.value.used else 0)
            && v.memoryAvailable == (if r.memory.Some? then r.memory.value.available else 0)
            && v.memoryUsagePercent == (if r.memory.Some? then r.memory.value.percent else 0.0)
            && v.diskTotalBytes == (if r.disk.Some? then r.disk.value.total else 0)
            && v.diskUsedBytes == (if r.disk.Some? then r.disk.value.used else 0)
            && v.diskFreeBytes == (if r.disk.Some? then r.disk.value.free else 0)
            && v.diskUsagePercent == (if r.disk.Some? then r.disk.value.percent else 0.0)
            && v.networkBytesReceived == (if r.network.Some? then r.network.value.received else 0)
            && v.networkBytesSent == (if r.network.Some? then r.network.value.sent else 0)
  {
  }

  /** The pool of reusable objects. */
  class MetricsPool {
    var free: multiset<MetricsCell>

    constructor ()
      ensures free == multiset{}
    {
      free := multiset{};
    }

    /** Any pooled object, which leaves the pool, or a new one; always zeroed. */
    method GetMetrics() returns (m: MetricsCell)
      modifies this, set cell | cell in free
      ensures m.v == ZERO
      ensures (fresh(m) && free == old(free)) || (m in old(free) && free == old(free) - multiset{m})
      ensures forall cell :: cell in old(free) && cell != m ==> cell.v == old(cell.v)
    {
      var reuse: bool := *;
      if reuse && |free| != 0 {
        m :| m in free;
        free := free - multiset{m};
      } else {
        m := new MetricsCell(ZERO);
      }
      m.v := ZERO;
    }

    method PutMetrics(m: MetricsCell)
      modifies this
      ensures free == old(free) + multiset{m}
    {
      free := free + multiset{m};
    }
  }

  class MetricsBuffer {
    var metrics: MetricsCell

    constructor (metrics: MetricsCell)
      ensures this.metrics == metrics
    {
      this.metrics := metrics;
    }

    method Update(c: Collector, r: Readings, ghost done: set<Collector>)
      requires metrics.v == Measured(r, done)
      modifies metrics
      ensures metrics.v == Measured(r, done + {c})
    {
      match c
      case Cpu =>
        if r.cpu.Some? {
          metrics.v := metrics.v.(cpuUsagePercent := r.cpu.value);
        }
      case Memory =>
        if r.memory.Some? {
          metrics.v := metrics.v.(
              memoryTotal := r.memory.value.total, memoryUsed := r.memory.value.used,
              memoryAvailable := r.memory.value.available, memoryUsagePercent := r.memory.value.percent);
        }
      case Disk =>
        if r.disk.Some? {
          metrics.v := metrics.v.(
              diskTotalBytes := r.disk.value.total, diskUsedBytes := r.disk.value.used,
              diskFreeBytes := r.disk.value.free, diskUsagePercent := r.disk.value.percent);
        }
      case Network =>
        if r.network.Some? {
          metrics.v := metrics.v.(
              networkBytesReceived := r.network.value.received, networkBytesSent := r.network.value.sent);
        }
    }

    method Finalize(clientID: string, now: Time)
      modifies metrics
      ensures metrics.v == old(metrics.v).(timestamp := now, clientID := clientID)
    {
      metrics.v := metrics.v.(timestamp := now, clientID := clientID);
    }
  }

  class System {
    const buffer: MetricsBuffer
    const pool: MetricsPool
    const cache: MemoryCache
    const clientID: string

    /** Every snapshot object handed to the callback so far. */
    ghost var issued: set<MetricsCell>

    /** The objects the system goes on writing to: the buffer's and the pooled ones. */
    ghost var owned: set<MetricsCell>

    /** The buffer's object is not in the pool, and no object is there twice. */
    ghost predicate Separate()
      reads this, buffer, pool
    {
      && buffer.metrics !in pool.free
      && (forall cell :: cell in pool.free ==> pool.free[cell] == 1)
      && owned == {buffer.metrics} + (set cell | cell in pool.free)
    }

    /** No snapshot handed out, so none in the cache, is an object the system writes to. */
    ghost predicate Isolated()
      reads this, buffer, pool, cache, cache.commands.Values, cache.metrics
    {
      && cache.Valid()
      && Separate()
      && issued !! owned
      && (forall cell :: cell in cache.metrics ==> cell in issued)
    }

    ghost predicate Valid()
      reads this, buffer, buffer.metrics, pool, cache, cache.commands.Values, cache.metrics
    {
      Isolated() && buffer.metrics.v == ZERO
    }

    constructor (pool: MetricsPool, cache: MemoryCache, clientID: string)
      requires pool.free == multiset{} && cache.Valid() && cache.metrics == []
      modifies pool
      ensures Valid() && issued == {}
      ensures this.pool == pool && this.cache == cache && this.clientID == clientID
      ensures fresh(buffer) && fresh(buffer.metrics)
    {
      var cell := pool.GetMetrics();
      this.buffer := new MetricsBuffer(cell);
      this.pool := pool;
      this.cache := cache;
      this.clientID := clientID;
      this.issued := {};
      this.owned := {cell};
    }

    /** The collectors run concurrently; each writes its own fields, so their order is any. */
    method Collect(r: Readings)
      requires buffer.metrics.v == ZERO
      modifies buffer.metrics
      ensures buffer.metrics.v == Measured(r, ALL)
    {
      var running := ALL;
      while running != {}
        invariant running <= ALL
        invariant buffer.metrics.v == Measured(r, ALL - running)
        decreases |running|
      {
        var c :| c in running;
        buffer.Update(c, r, ALL - running);
        assert ALL - running + {c} == ALL - (running - {c});
        running := running - {c};
      }
      assert ALL - running == ALL;
    }

    /** The buffer's object returns to the pool after a new one has been taken. */
    method Reset()
      requires Separate()
      modifies this`owned, buffer, pool, owned
      ensures Separate() && fresh(owned - old(owned))
      ensures buffer.metrics.v == ZERO
      ensures pool.free == old(pool.free) - multiset{buffer.metrics} + multiset{old(buffer.metrics)}
    {
      var old' := buffer.metrics;
      buffer.metrics := pool.GetMetrics();
      pool.PutMetrics(old');
      owned := {buffer.metrics} + (set cell | cell in pool.free);
    }

    /** One cycle hands out exactly one new object, holding this cycle's measurement, stores it
        in the cache, and changes no object handed out before. */
    method CollectOnce(c: Cycle) returns (ghost copy: MetricsCell)
      requires Valid()
      modifies this`issued, this`owned, buffer, pool, cache`metrics, cache`lastCleanup, cache`nextID, owned
      ensures Valid()
      ensures fresh(owned - old(owned))
      ensures fresh(copy) && copy.v.(id := 0) == SnapshotOf(c, clientID)
      ensures issued == old(issued) + {copy} && forall cell :: cell in old(issued) ==> cell.v == old(cell.v)
      ensures cache.Contents()
           == M.Apply(old(cache.Contents()), M.StoreMetrics(SnapshotOf(c, clientID), c.since, c.now, c.after))
    {
      Measure(c);
      copy := Publish(c);
      Recycle();
    }

    /** Fill and finalize the buffer. */
    method Measure(c: Cycle)
      requires Valid()
      modifies buffer.metrics
      ensures Isolated() && buffer.metrics.v == SnapshotOf(c, clientID)
      ensures forall cell :: cell in issued ==> cell.v == old(cell.v)
      ensures cache.Contents() == old(cache.Contents())
    {
      assert forall cell :: cell in cache.metrics || cell in issued ==> cell != buffer.metrics;
      Collect(c.readings);
      buffer.Finalize(clientID, c.finalized);
      assert Values(cache.metrics) == old(Values(cache.metrics));
    }

    /** Reset the buffer; the snapshots are not affected. */
    method Recycle()
      requires Isolated()
      modifies this`owned, buffer, pool, owned
      ensures Valid()
      ensures fresh(owned - old(owned))
      ensures forall cell :: cell in issued ==> cell.v == old(cell.v)
      ensures cache.Contents() == old(cache.Contents())
    {
      assert forall cell :: cell in cache.metrics || cell in issued ==> cell !in owned;
      Reset();
      assert Values(cache.metrics) == old(Values(cache.metrics));
    }

    /** Copy the buffer's object and hand the copy to the callback, which stores it. */
    method Publish(c: Cycle) returns (ghost copy: MetricsCell)
      requires Isolated() && buffer.metrics.v.id == 0
      modifies this`issued, cache`metrics, cache`lastCleanup, cache`nextID
      ensures Isolated()
      ensures fresh(copy) && copy.v.(id := 0) == buffer.metrics.v
      ensures issued == old(issued) + {copy} && forall cell :: cell in old(issued) ==> cell.v == old(cell.v)
      ensures cache.Contents()
           == M.Apply(old(cache.Contents()), M.StoreMetrics(buffer.metrics.v, c.since, c.now, c.after))
    {
      var metrics := buffer.metrics;
      var metricsCopy := new MetricsCell(metrics.v);
      issued := issued + {metricsCopy};
      cache.StoreMetrics(metricsCopy, c.since, c.now, c.after);
      assert metricsCopy !in owned;
      copy := metricsCopy;
    }

    /** Each copy made so far holds the measurement of its own cycle. */
    ghost predicate Recorded(copies: seq<MetricsCell>, cycles: seq<Cycle>)
      reads this, copies
    {
      && |copies| <= |cycles|
      && forall k :: 0 <= k < |copies| ==>
           copies[k] in issued && copies[k].v.(id := 0) == SnapshotOf(cycles[k], clientID)
    }

    /** One more cycle leaves every earlier copy as it was. */
    method NextCycle(cycles: seq<Cycle>, i: nat, ghost copies: seq<MetricsCell>)
        returns (ghost extended: seq<MetricsCell>)
      requires i < |cycles| && |copies| == i
      requires Valid() && Recorded(copies, cycles)
      modifies this`issued, this`owned, buffer, pool, cache`metrics, cache`lastCleanup, cache`nextID, owned
      ensures Valid() && fresh(owned - old(owned))
      ensures |extended| == i + 1 && Recorded(extended, cycles)
      ensures old(issued) <= issued && forall cell :: cell in old(issued) ==> cell.v == old(cell.v)
    {
      ghost var copy := CollectOnce(cycles[i]);
      forall k | 0 <= k < |copies|
        ensures copies[k] in issued && copies[k].v.(id := 0) == SnapshotOf(cycles[k], clientID)
      {
        assert copies[k] in old(issued);
      }
      extended := copies + [copy];
    }

    /** Over any run of cycles every snapshot keeps, to the end of the run, the measurement of
        its own cycle: no later cycle, reset or reuse of an object changes it. */
    method Cycles(cycles: seq<Cycle>) returns (ghost copies: seq<MetricsCell>)
      requires Valid()
      modifies this`issued, this`owned, buffer, pool, cache`metrics, cache`lastCleanup, cache`nextID, owned
      ensures Valid()
      ensures |copies| == |cycles| && Recorded(copies, cycles)
      ensures old(issued) <= issued && forall cell :: cell in old(issued) ==> cell.v == old(cell.v)
    {
      copies := [];
      for i := 0 to |cycles|
        invariant Valid()
        invariant fresh(owned - old(owned))
        invariant |copies| == i && Recorded(copies, cycles)
        invariant old(issued) <= issued
        invariant forall cell :: cell in old(issued) ==> cell.v == old(cell.v)
      {
        copies := NextCycle(cycles, i, copies);
      }
    }
  }
}

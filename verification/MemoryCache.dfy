/**
 The in-memory cache as the program runs it: an object holding a map of command cells and a
 list of metrics cells. Cells are shared with callers, as pointers are.
 */
module MemoryCache {
  import opened Clock
  import opened Sequences
  import M = CacheModel

  class CommandCell {
    var v: M.Command

    constructor (v: M.Command)
      ensures this.v == v
    {
      this.v := v;
    }
  }

  class MetricsCell {
    var v: M.Metrics

    constructor (v: M.Metrics)
      ensures this.v == v
    {
      this.v := v;
    }
  }

  /** The measurements a list of cells holds now. */
  function Values(cells: seq<MetricsCell>): (vs: seq<M.Metrics>)
    reads cells
    ensures |vs| == |cells|
    ensures forall i :: 0 <= i < |cells| ==> vs[i] == cells[i].v
  {
    seq(|cells|, i requires 0 <= i < |cells| reads cells => cells[i].v)
  }

  /** The commands a map of cells holds now. */
  function Records(cells: map<string, CommandCell>): (rs: map<string, M.Command>)
    reads cells.Values
    ensures rs.Keys == cells.Keys
    ensures forall id :: id in cells ==> rs[id] == cells[id].v
  {
    map id | id in cells :: cells[id].v
  }

  ghost predicate SortedByCreation(cells: seq<CommandCell>)
    reads cells
  {
    forall i, j :: 0 <= i < j < |cells| ==> cells[i].v.createdAt <= cells[j].v.createdAt
  }

  function Swap<T>(xs: seq<T>, i: nat, j: nat): (ys: seq<T>)
    requires i < |xs| && j < |xs|
    ensures |ys| == |xs| && ys[i] == xs[j] && ys[j] == xs[i]
    ensures forall k :: 0 <= k < |xs| && k != i && k != j ==> ys[k] == xs[k]
    ensures multiset(ys) == multiset(xs)
  {
    xs[i := xs[j]][j := xs[i]]
  }

  /** The command IDs a list of cells holds now. */
  function IDs(cells: seq<CommandCell>): (ids: seq<string>)
    reads cells
    ensures |ids| == |cells|
    ensures forall i :: 0 <= i < |cells| ==> ids[i] == cells[i].v.commandID
  {
    seq(|cells|, i requires 0 <= i < |cells| reads cells => cells[i].v.commandID)
  }

  lemma RetainedExactly(ms: seq<M.Metrics>, cutoff: Time)
    ensures forall m :: m in M.Retained(ms, cutoff) <==> m in ms && cutoff <= m.timestamp
  {
    forall m ensures m in M.Retained(ms, cutoff) <==> m in ms && cutoff <= m.timestamp {
      FilterMember(ms, (m: M.Metrics) => cutoff <= m.timestamp, m);
    }
  }

  lemma WindowExactly(ms: seq<M.Metrics>, start: Time, end: Time)
    ensures forall m :: m in M.Window(ms, start, end) <==> m in ms && start <= m.timestamp <= end
  {
    forall m ensures m in M.Window(ms, start, end) <==> m in ms && start <= m.timestamp <= end {
      M.WindowMember(ms, start, end, m);
    }
  }

  class MemoryCache {
    var commands: map<string, CommandCell>
    var metrics: seq<MetricsCell>
    const retentionDays: int
    var lastCleanup: Time
    var nextID: int

    ghost predicate Valid()
      reads this, commands.Values, metrics
    {
      && 0 <= nextID
      && 1 <= retentionDays
      && (forall id :: id in commands ==> commands[id].v.commandID == id)
      && (forall cell :: cell in metrics ==> cell.v.id != 0)
    }

    /** The contents, as a value. */
    ghost function Contents(): M.Cache
      reads this, commands.Values, metrics
    {
      M.Cache(Records(commands), Values(metrics), retentionDays, lastCleanup, nextID)
    }

    /** The stored commands that are pending. */
    ghost function PendingCells(): set<CommandCell>
      reads this, commands.Values
    {
      set cell | cell in commands.Values && cell.v.status == M.STATUS_PENDING
    }

    constructor (configuredDays: int, now: Time)
      ensures Valid()
      ensures commands == map[] && metrics == [] && lastCleanup == now
      ensures retentionDays == if configuredDays <= 0 then 7 else configuredDays
      ensures Contents() == M.Fresh(configuredDays, now)
    {
      commands := map[];
      metrics := [];
      retentionDays := if configuredDays <= 0 then M.DEFAULT_RETENTION_DAYS else configuredDays;
      lastCleanup := now;
      nextID := 0;
    }

    method StoreCommand(cmd: CommandCell)
      requires Valid()
      modifies this`commands, this`nextID, cmd
      ensures Valid()
      ensures commands == old(commands)[cmd.v.commandID := cmd]
      ensures Contents() == M.Apply(old(Contents()), M.StoreCommand(old(cmd.v)))
    {
      if cmd.v.id == 0 {
        nextID := nextID + 1;
        cmd.v := cmd.v.(id := nextID);
      }
      commands := commands[cmd.v.commandID := cmd];
      assert Records(commands) == old(Records(commands))[cmd.v.commandID := cmd.v];
    }

    method MarkCommandComplete(commandID: string, now: Time)
      requires Valid()
      modifies if commandID in commands then {commands[commandID]} else {}
      ensures Valid()
      ensures Contents() == M.Apply(old(Contents()), M.MarkCommandComplete(commandID, now))
    {
      if commandID in commands {
        var cmd := commands[commandID];
        cmd.v := cmd.v.(status := M.STATUS_COMPLETE, completedAt := now);
        assert Records(commands) == old(Records(commands))[commandID := cmd.v];
      }
    }

    /** Whatever the order in which the map yields its entries, the result holds each pending
        command once and nothing else, oldest first. */
    method GetPendingCommands() returns (pending: seq<CommandCell>)
      requires Valid()
      ensures multiset(pending) == multiset(PendingCells())
      ensures forall i, j :: 0 <= i < j < |pending| ==> pending[i].v.createdAt <= pending[j].v.createdAt
      ensures M.IsPendingList(Contents(), IDs(pending))
    {
      pending := CollectPending();
      var i := 0;
      while i < |pending| - 1
        invariant 0 <= i && (|pending| > 0 ==> i <= |pending| - 1)
        invariant multiset(pending) == multiset(PendingCells())
        invariant forall a, b :: 0 <= a < i && a < b < |pending| ==>
            pending[a].v.createdAt <= pending[b].v.createdAt
      {
        pending := SelectOldest(pending, i);
        i := i + 1;
      }
      PendingIDsInOrder(this, pending);
    }

    /** The loop over the map, entries in any order. */
    method CollectPending() returns (pending: seq<CommandCell>)
      requires Valid()
      ensures multiset(pending) == multiset(PendingCells())
    {
      pending := [];
      var keys := commands.Keys;
      ghost var found: set<CommandCell> := {};
      while keys != {}
        invariant keys <= commands.Keys
        invariant multiset(pending) == multiset(found)
        invariant forall cell :: cell in found ==>
            cell.v.status == M.STATUS_PENDING && cell.v.commandID in commands.Keys - keys && commands[cell.v.commandID] == cell
        invariant forall id :: id in commands.Keys - keys && commands[id].v.status == M.STATUS_PENDING ==>
            commands[id] in found
        decreases |keys|
      {
        var id :| id in keys;
        var cmd := commands[id];
        keys := keys - {id};
        if cmd.v.status == M.STATUS_PENDING {
          pending := pending + [cmd];
          found := found + {cmd};
        }
      }
      assert found == PendingCells();
    }

    /** The inner loop of the exchange sort: bring the oldest of the tail to position `i`. */
    method SelectOldest(cells: seq<CommandCell>, i: nat) returns (sorted: seq<CommandCell>)
      requires i < |cells|
      requires forall a, b :: 0 <= a < i && a < b < |cells| ==> cells[a].v.createdAt <= cells[b].v.createdAt
      ensures |sorted| == |cells| && multiset(sorted) == multiset(cells)
      ensures forall a, b :: 0 <= a <= i && a < b < |sorted| ==> sorted[a].v.createdAt <= sorted[b].v.createdAt
    {
      sorted := cells;
      var j := i + 1;
      while j < |sorted|
        invariant i < j <= |sorted| == |cells|
        invariant multiset(sorted) == multiset(cells)
        invariant forall a, b :: 0 <= a < i && a < b < |sorted| ==> sorted[a].v.createdAt <= sorted[b].v.createdAt
        invariant forall b :: i < b < j ==> sorted[i].v.createdAt <= sorted[b].v.createdAt
      {
        if sorted[j].v.createdAt < sorted[i].v.createdAt {
          sorted := Swap(sorted, i, j);
        }
        j := j + 1;
      }
    }

    /** `since`, `now` and `after` are the three readings of the clock. */
    method StoreMetrics(m: MetricsCell, since: Time, now: Time, after: Time)
      requires Valid()
      modifies this`metrics, this`lastCleanup, this`nextID, m
      ensures Valid()
      ensures forall cell :: cell in metrics ==> cell == m || cell in old(metrics)
      ensures m.v == if old(m.v).id == 0 then old(m.v).(id := nextID) else old(m.v)
      ensures Contents() == M.Apply(old(Contents()), M.StoreMetrics(old(m.v), since, now, after))
    {
      Append(m);
      if since - lastCleanup > M.CLEANUP_INTERVAL {
        Cleanup(now, after);
      }
    }

    /** Number the measurement if it has no number yet, and append it. */
    method Append(m: MetricsCell)
      requires Valid()
      modifies this`metrics, this`nextID, m
      ensures Valid()
      ensures metrics == old(metrics) + [m]
      ensures m.v == if old(m.v).id == 0 then old(m.v).(id := nextID) else old(m.v)
      ensures Contents() == M.InsertMetrics(old(Contents()), old(m.v))
    {
      if m.v.id == 0 {
        nextID := nextID + 1;
        m.v := m.v.(id := nextID);
      }
      metrics := metrics + [m];
      assert Values(metrics) == old(Values(metrics)) + [m.v];
    }

    method CleanupOldMetrics(now: Time)
      requires Valid()
      modifies this`metrics
      ensures Valid()
      ensures forall cell :: cell in metrics ==> cell in old(metrics)
      ensures forall m :: m in Values(metrics) <==>
                m in old(Values(metrics)) && now - retentionDays * DAY <= m.timestamp
      ensures Values(metrics) == M.Retained(old(Values(metrics)), M.Cutoff(old(Contents()), now))
    {
      var cutoff := now - retentionDays * DAY;
      var all := metrics;
      var retained: seq<MetricsCell> := [];
      for i := 0 to |all|
        invariant forall cell :: cell in retained ==> cell in all
        invariant Values(retained) == M.Retained(Values(all[..i]), cutoff)
      {
        var metric := all[i];
        assert Values(all[..i + 1]) == Values(all[..i]) + [metric.v];
        FilterSnoc(Values(all[..i]), metric.v, (m: M.Metrics) => cutoff <= m.timestamp);
        if !(metric.v.timestamp < cutoff) {
          assert Values(retained + [metric]) == Values(retained) + [metric.v];
          retained := retained + [metric];
        }
      }
      assert all[..|all|] == all;
      RetainedExactly(Values(all), cutoff);
      metrics := retained;
    }

    method GetMetrics(start: Time, end: Time) returns (result: seq<MetricsCell>)
      ensures forall cell :: cell in result ==> cell in metrics
      ensures forall m :: m in Values(result) <==> m in Values(metrics) && start <= m.timestamp <= end
      ensures Values(result) == M.Window(Values(metrics), start, end)
    {
      result := [];
      for i := 0 to |metrics|
        invariant forall cell :: cell in result ==> cell in metrics
        invariant Values(result) == M.Window(Values(metrics[..i]), start, end)
      {
        var metric := metrics[i];
        assert Values(metrics[..i + 1]) == Values(metrics[..i]) + [metric.v];
        FilterSnoc(Values(metrics[..i]), metric.v, (m: M.Metrics) => start <= m.timestamp <= end);
        var t := metric.v.timestamp;
        if (t == start || t > start) && (t == end || t < end) {
          assert Values(result + [metric]) == Values(result) + [metric.v];
          result := result + [metric];
        }
      }
      assert metrics[..|metrics|] == metrics;
      WindowExactly(Values(metrics), start, end);
    }

    /** Prune, then record when: the two statements of the periodic and the manual cleanup. */
    method Cleanup(now: Time, after: Time)
      requires Valid()
      modifies this`metrics, this`lastCleanup
      ensures Valid()
      ensures forall cell :: cell in metrics ==> cell in old(metrics)
      ensures Contents() == M.Apply(old(Contents()), M.Cleanup(now, after))
    {
      CleanupOldMetrics(now);
      lastCleanup := after;
    }
  }

  /** A sorted list of the pending cells, seen as a list of command IDs. */
  lemma PendingIDsInOrder(cache: MemoryCache, pending: seq<CommandCell>)
    requires cache.Valid()
    requires multiset(pending) == multiset(cache.PendingCells()) && SortedByCreation(pending)
    ensures M.IsPendingList(cache.Contents(), IDs(pending))
  {
    var c, ids := cache.Contents(), IDs(pending);
    ListsSet(pending, cache.PendingCells());
    forall i | 0 <= i < |ids|
      ensures ids[i] in M.PendingIDs(c) && cache.commands[ids[i]] == pending[i]
    {
      assert pending[i] in pending;
    }
    forall id | id in M.PendingIDs(c) ensures id in ids {
      assert cache.commands[id] in cache.PendingCells();
      var i :| 0 <= i < |pending| && pending[i] == cache.commands[id];
      assert ids[i] == id;
    }
    DistinctListsSet(ids, M.PendingIDs(c));
  }
}

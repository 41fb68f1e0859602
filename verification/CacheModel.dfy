/**
 The in-memory cache as a value: what each operation does to its contents.
 The class in module `MemoryCache` is proved to do exactly this; the theorems about
 retention are stated here, over every sequence of operations.
 */
module CacheModel {
  import opened Clock
  import opened Sequences

  const STATUS_PENDING := "pending"
  const STATUS_COMPLETE := "complete"
  const CLEANUP_INTERVAL := HOUR
  const DEFAULT_RETENTION_DAYS := 7

  datatype Command = Command(
    id: int,
    commandID: string,
    kind: string,
    payload: string,
    status: string,
    result: string,
    createdAt: Time,
    completedAt: Time)

  datatype Metrics = Metrics(
    id: int,
    timestamp: Time,
    clientID: string,
    cpuUsagePercent: real,
    memoryTotal: nat,
    memoryUsed: nat,
    memoryAvailable: nat,
    memoryUsagePercent: real,
    diskTotalBytes: nat,
    diskUsedBytes: nat,
    diskFreeBytes: nat,
    diskUsagePercent: real,
    networkBytesReceived: nat,
    networkBytesSent: nat,
    synced: bool)

  datatype Cache = Cache(
    commands: map<string, Command>,
    metrics: seq<Metrics>,
    retentionDays: int,
    lastCleanup: Time,
    nextID: int)

  /** One call on the cache, with the clock readings it makes, in order. */
  datatype Op =
    | StoreCommand(cmd: Command)
    | MarkCommandComplete(commandID: string, now: Time)
    | StoreMetrics(m: Metrics, since: Time, now: Time, after: Time)
    | Cleanup(now: Time, after: Time)

  const ZERO_TIME: Time := 0

  /** A command received: its ID and type. */
  datatype Received = Received(commandID: string, kind: string)

  /** The record the agent's poll worker stores for it: the payload is left empty. */
  function PolledRecord(r: Received, now: Time): Command
  {
    Command(0, r.commandID, r.kind, "", STATUS_PENDING, "", now, ZERO_TIME)
  }

  function Fresh(configuredDays: int, now: Time): Cache
  {
    Cache(map[], [], if configuredDays <= 0 then DEFAULT_RETENTION_DAYS else configuredDays, now, 0)
  }

  /** Metrics not older than the cutoff. */
  function Retained(ms: seq<Metrics>, cutoff: Time): seq<Metrics>
  {
    Filter(ms, (m: Metrics) => cutoff <= m.timestamp)
  }

  /** Metrics with a timestamp in the closed interval. */
  function Window(ms: seq<Metrics>, start: Time, end: Time): seq<Metrics>
  {
    Filter(ms, (m: Metrics) => start <= m.timestamp <= end)
  }

  function Cutoff(c: Cache, now: Time): Time
  {
    now - c.retentionDays * DAY
  }

  function InsertCommand(c: Cache, cmd: Command): Cache
  {
    if cmd.id == 0 then
      c.(commands := c.commands[cmd.commandID := cmd.(id := c.nextID + 1)], nextID := c.nextID + 1)
    else
      c.(commands := c.commands[cmd.commandID := cmd])
  }

  function InsertMetrics(c: Cache, m: Metrics): Cache
  {
    if m.id == 0 then
      c.(metrics := c.metrics + [m.(id := c.nextID + 1)], nextID := c.nextID + 1)
    else
      c.(metrics := c.metrics + [m])
  }

  function Complete(c: Cache, commandID: string, now: Time): Cache
  {
    if commandID in c.commands then
      var cmd := c.commands[commandID].(status := STATUS_COMPLETE, completedAt := now);
      c.(commands := c.commands[commandID := cmd])
    else c
  }

  function Prune(c: Cache, now: Time, after: Time): Cache
  {
    c.(metrics := Retained(c.metrics, Cutoff(c, now)), lastCleanup := after)
  }

  /** Whether a `StoreMetrics` at this reading of the clock prunes. */
  predicate Due(c: Cache, since: Time)
  {
    since - c.lastCleanup > CLEANUP_INTERVAL
  }

  function Apply(c: Cache, op: Op): Cache
  {
    match op
    case StoreCommand(cmd) => InsertCommand(c, cmd)
    case MarkCommandComplete(commandID, now) => Complete(c, commandID, now)
    case StoreMetrics(m, since, now, after) =>
      var stored := InsertMetrics(c, m);
      if Due(c, since) then Prune(stored, now, after) else stored
    case Cleanup(now, after) => Prune(c, now, after)
  }

  /** The reference: the same call on a cache that never forgets a measurement. */
  function ApplyUnpruned(c: Cache, op: Op): Cache
  {
    match op
    case StoreCommand(cmd) => InsertCommand(c, cmd)
    case MarkCommandComplete(commandID, now) => Complete(c, commandID, now)
    case StoreMetrics(m, _, _, _) => InsertMetrics(c, m)
    case Cleanup(_, _) => c
  }

  function Run(c: Cache, ops: seq<Op>): Cache
  {
    if ops == [] then c else Apply(Run(c, ops[..|ops| - 1]), ops[|ops| - 1])
  }

  function RunUnpruned(c: Cache, ops: seq<Op>): Cache
  {
    if ops == [] then c else ApplyUnpruned(RunUnpruned(c, ops[..|ops| - 1]), ops[|ops| - 1])
  }

  /** The retention cutoffs one call prunes with: none or one. */
  function CutoffsOf(c: Cache, op: Op): set<Time>
  {
    match op
    case StoreMetrics(_, since, now, _) => if Due(c, since) then {Cutoff(c, now)} else {}
    case Cleanup(now, _) => {Cutoff(c, now)}
    case _ => {}
  }

  /** Every retention cutoff used so far in a run. */
  function CutoffsUsed(c: Cache, ops: seq<Op>): set<Time>
  {
    if ops == [] then {}
    else
      var before := ops[..|ops| - 1];
      CutoffsUsed(c, before) + CutoffsOf(Run(c, before), ops[|ops| - 1])
  }

  // ---------- What each call does, entry by entry ----------

  /** A new cache is empty, and keeps a week unless told otherwise. */
  lemma FreshIsEmpty(configuredDays: int, now: Time)
    ensures var c := Fresh(configuredDays, now);
            && c.commands == map[] && c.metrics == [] && c.nextID == 0 && c.lastCleanup == now
            && c.retentionDays == (if configuredDays <= 0 then 7 else configuredDays)
  {
  }

  /** A query finds exactly the measurements of the closed interval. */
  lemma WindowMember(ms: seq<Metrics>, start: Time, end: Time, m: Metrics)
    ensures m in Window(ms, start, end) <==> m in ms && start <= m.timestamp <= end
  {
    FilterMember(ms, (m: Metrics) => start <= m.timestamp <= end, m);
  }

  /** A cleanup keeps exactly what is not older than the retention period, and nothing else changes. */
  lemma CleanupKeepsExactly(c: Cache, now: Time, after: Time, m: Metrics)
    ensures var c' := Apply(c, Cleanup(now, after));
            && (m in c'.metrics <==> m in c.metrics && now - c.retentionDays * DAY <= m.timestamp)
            && c'.lastCleanup == after
            && c'.commands == c.commands && c'.nextID == c.nextID && c'.retentionDays == c.retentionDays
  {
    FilterMember(c.metrics, (m: Metrics) => now - c.retentionDays * DAY <= m.timestamp, m);
  }

  /** The measurement as it is stored: with the next number if it has none. */
  function Stored(c: Cache, m: Metrics): Metrics
  {
    if m.id == 0 then m.(id := c.nextID + 1) else m
  }

  /** Storing a measurement appends it; if more than an hour has passed since the last cleanup,
      exactly what is not older than the retention period is then kept. */
  lemma StoreMetricsKeepsExactly(c: Cache, m: Metrics, since: Time, now: Time, after: Time, x: Metrics)
    ensures var c' := Apply(c, StoreMetrics(m, since, now, after));
            && (since - c.lastCleanup <= HOUR ==>
                  c'.metrics == c.metrics + [Stored(c, m)] && c'.lastCleanup == c.lastCleanup)
            && (since - c.lastCleanup > HOUR ==>
                  && (x in c'.metrics <==>
                        (x in c.metrics || x == Stored(c, m)) && now - c.retentionDays * DAY <= x.timestamp)
                  && c'.lastCleanup == after)
            && c'.commands == c.commands && c'.retentionDays == c.retentionDays
  {
    FilterMember(c.metrics + [Stored(c, m)], (m: Metrics) => now - c.retentionDays * DAY <= m.timestamp, x);
  }

  /** Completing a command sets its status and completion time, and nothing else of anything. */
  lemma MarkCompletesExactly(c: Cache, commandID: string, now: Time)
    ensures var c' := Apply(c, MarkCommandComplete(commandID, now));
            && (commandID !in c.commands ==> c' == c)
            && (commandID in c.commands ==>
                  && c'.commands.Keys == c.commands.Keys
                  && c'.commands[commandID].status == "complete"
                  && c'.commands[commandID].completedAt == now
                  && c'.commands[commandID].id == c.commands[commandID].id
                  && c'.commands[commandID].kind == c.commands[commandID].kind
                  && c'.commands[commandID].payload == c.commands[commandID].payload
                  && c'.commands[commandID].result == c.commands[commandID].result
                  && c'.commands[commandID].createdAt == c.commands[commandID].createdAt
                  && forall other :: other in c.commands && other != commandID ==>
                       c'.commands[other] == c.commands[other])
            && c'.metrics == c.metrics && c'.nextID == c.nextID
  {
  }

  // ---------- Numbers ----------

  /** Every entry has a number of its own, and measurements are stored in the order of theirs. */
  ghost predicate Numbered(c: Cache)
  {
    && 0 <= c.nextID
    && (forall i :: 0 <= i < |c.metrics| ==> 0 < c.metrics[i].id <= c.nextID)
    && Increasing(c.metrics)
    && (forall id :: id in c.commands ==> 0 < c.commands[id].id <= c.nextID)
    && (forall id, other :: id in c.commands && other in c.commands && id != other ==>
          c.commands[id].id != c.commands[other].id)
    && (forall id, i :: id in c.commands && 0 <= i < |c.metrics| ==> c.commands[id].id != c.metrics[i].id)
  }

  ghost predicate Increasing(ms: seq<Metrics>)
  {
    forall i, j :: 0 <= i < j < |ms| ==> ms[i].id < ms[j].id
  }

  /** What is stored has no number yet. */
  predicate Unnumbered(op: Op)
  {
    match op
    case StoreCommand(cmd) => cmd.id == 0
    case StoreMetrics(m, _, _, _) => m.id == 0
    case _ => true
  }

  lemma {:induction false} RetainedIncreasing(ms: seq<Metrics>, cutoff: Time)
    requires Increasing(ms)
    ensures Increasing(Retained(ms, cutoff))
    ensures forall m :: m in Retained(ms, cutoff) ==> m in ms
  {
    if ms != [] {
      var init := ms[..|ms| - 1];
      RetainedIncreasing(init, cutoff);
      assert forall m :: m in init ==> m in ms && m.id < ms[|ms| - 1].id;
    }
  }

  lemma PruneNumbers(c: Cache, now: Time, after: Time)
    requires Numbered(c)
    ensures Numbered(Prune(c, now, after))
  {
    RetainedIncreasing(c.metrics, Cutoff(c, now));
    var kept := Retained(c.metrics, Cutoff(c, now));
    forall i | 0 <= i < |kept|
      ensures 0 < kept[i].id <= c.nextID && forall id :: id in c.commands ==> c.commands[id].id != kept[i].id
    {
      assert kept[i] in c.metrics;
    }
  }

  lemma InsertCommandNumbers(c: Cache, cmd: Command)
    requires Numbered(c) && cmd.id == 0
    ensures Numbered(InsertCommand(c, cmd))
  {
  }

  lemma CompleteNumbers(c: Cache, commandID: string, now: Time)
    requires Numbered(c)
    ensures Numbered(Complete(c, commandID, now))
  {
  }

  lemma InsertMetricsNumbers(c: Cache, m: Metrics)
    requires Numbered(c) && m.id == 0
    ensures Numbered(InsertMetrics(c, m))
  {
  }

  lemma ApplyNumbers(c: Cache, op: Op)
    requires Numbered(c) && Unnumbered(op)
    ensures Numbered(Apply(c, op))
  {
    match op
    case StoreCommand(cmd) => InsertCommandNumbers(c, cmd);
    case MarkCommandComplete(commandID, now) => CompleteNumbers(c, commandID, now);
    case StoreMetrics(m, since, now, after) =>
      InsertMetricsNumbers(c, m);
      if Due(c, since) {
        PruneNumbers(InsertMetrics(c, m), now, after);
      }
    case Cleanup(now, after) => PruneNumbers(c, now, after);
  }

  /** Over any run from a new cache no number is given twice. */
  lemma {:induction false} NumbersAreUnique(configuredDays: int, born: Time, ops: seq<Op>)
    requires forall op :: op in ops ==> Unnumbered(op)
    ensures Numbered(Run(Fresh(configuredDays, born), ops))
  {
    if ops != [] {
      assert ops[|ops| - 1] in ops;
      NumbersAreUnique(configuredDays, born, ops[..|ops| - 1]);
      ApplyNumbers(Run(Fresh(configuredDays, born), ops[..|ops| - 1]), ops[|ops| - 1]);
    }
  }

  // ---------- Retention against an unbounded log ----------

  /** The cache and its never-pruned reference look the same through any window that
      starts at or after `bound`, and number their entries alike. */
  ghost predicate Agrees(c: Cache, u: Cache, bound: Time)
  {
    && c.commands == u.commands
    && c.nextID == u.nextID
    && c.retentionDays == u.retentionDays
    && forall start, end :: bound <= start ==> Window(c.metrics, start, end) == Window(u.metrics, start, end)
  }

  lemma AgreesFromLaterBound(c: Cache, u: Cache, bound: Time, later: Time)
    requires Agrees(c, u, bound) && bound <= later
    ensures Agrees(c, u, later)
  {
  }

  lemma PruneKeepsWindow(ms: seq<Metrics>, cutoff: Time, start: Time, end: Time)
    requires cutoff <= start
    ensures Window(Retained(ms, cutoff), start, end) == Window(ms, start, end)
  {
    FilterFilter(ms, (m: Metrics) => cutoff <= m.timestamp, (m: Metrics) => start <= m.timestamp <= end);
  }

  lemma InsertAgrees(c: Cache, u: Cache, m: Metrics, bound: Time)
    requires Agrees(c, u, bound)
    ensures Agrees(InsertMetrics(c, m), InsertMetrics(u, m), bound)
  {
    var stored := if m.id == 0 then m.(id := c.nextID + 1) else m;
    forall start, end | bound <= start
      ensures Window(c.metrics + [stored], start, end) == Window(u.metrics + [stored], start, end)
    {
      var inside := (m: Metrics) => start <= m.timestamp <= end;
      assert Window(c.metrics, start, end) == Window(u.metrics, start, end);
      FilterSnoc(c.metrics, stored, inside);
      FilterSnoc(u.metrics, stored, inside);
    }
  }

  lemma PruneAgrees(c: Cache, u: Cache, now: Time, after: Time, bound: Time)
    requires Agrees(c, u, bound) && Cutoff(c, now) <= bound
    ensures Agrees(Prune(c, now, after), u, bound)
  {
    forall start, end | bound <= start
      ensures Window(Prune(c, now, after).metrics, start, end) == Window(u.metrics, start, end)
    {
      PruneKeepsWindow(c.metrics, Cutoff(c, now), start, end);
    }
  }

  /** One call keeps the agreement, if the bound is not before the cutoff it prunes with. */
  lemma ApplyAgrees(c: Cache, u: Cache, op: Op, bound: Time)
    requires Agrees(c, u, bound)
    requires forall t :: t in CutoffsOf(c, op) ==> t <= bound
    ensures Agrees(Apply(c, op), ApplyUnpruned(u, op), bound)
  {
    match op
    case StoreCommand(_) =>
    case MarkCommandComplete(_, _) =>
    case StoreMetrics(m, since, now, after) =>
      InsertAgrees(c, u, m, bound);
      if Due(c, since) {
        assert Cutoff(c, now) in CutoffsOf(c, op);
        PruneAgrees(InsertMetrics(c, m), InsertMetrics(u, m), now, after, bound);
      }
    case Cleanup(now, after) =>
      assert Cutoff(c, now) in CutoffsOf(c, op);
      PruneAgrees(c, u, now, after, bound);
  }

  /** Retention refines an unbounded log: a query starting at or after every cutoff used so
      far answers exactly, and in the same order, what a never-pruned cache would. */
  lemma {:induction false} RetentionRefinesUnboundedLog(c: Cache, ops: seq<Op>, bound: Time)
    requires forall t :: t in CutoffsUsed(c, ops) ==> t <= bound
    ensures Agrees(Run(c, ops), RunUnpruned(c, ops), bound)
  {
    if ops != [] {
      var before, op := ops[..|ops| - 1], ops[|ops| - 1];
      assert CutoffsUsed(c, ops) == CutoffsUsed(c, before) + CutoffsOf(Run(c, before), op);
      RetentionRefinesUnboundedLog(c, before, bound);
      ApplyAgrees(Run(c, before), RunUnpruned(c, before), op, bound);
    }
  }

  /** No reading of the clock inside the call is later than `now`. */
  predicate ReadsNoLaterThan(op: Op, now: Time)
  {
    match op
    case StoreCommand(_) => true
    case MarkCommandComplete(_, t) => t <= now
    case StoreMetrics(_, t0, t1, t2) => t0 <= now && t1 <= now && t2 <= now
    case Cleanup(t1, t2) => t1 <= now && t2 <= now
  }

  /** With at least one day of retention, a cutoff taken by `now` is not inside the last day. */
  lemma CutoffsOlderThanADay(c: Cache, op: Op, now: Time)
    requires 1 <= c.retentionDays && ReadsNoLaterThan(op, now)
    ensures forall t :: t in CutoffsOf(c, op) ==> t <= now - DAY
  {
    assert c.retentionDays * DAY >= DAY;
  }

  lemma {:induction false} RetentionDaysKept(c: Cache, ops: seq<Op>)
    ensures Run(c, ops).retentionDays == c.retentionDays
  {
    if ops != [] {
      RetentionDaysKept(c, ops[..|ops| - 1]);
    }
  }

  /** A cutoff taken by `now` is not inside the retention period before it. */
  lemma {:induction false} CutoffsUsedOlderThanRetention(c: Cache, ops: seq<Op>, now: Time)
    requires 0 <= c.retentionDays
    requires forall op :: op in ops ==> ReadsNoLaterThan(op, now)
    ensures forall t :: t in CutoffsUsed(c, ops) ==> t <= now - c.retentionDays * DAY
  {
    if ops != [] {
      var before, op := ops[..|ops| - 1], ops[|ops| - 1];
      assert forall o :: o in before ==> o in ops;
      CutoffsUsedOlderThanRetention(c, before, now);
      RetentionDaysKept(c, before);
      assert ReadsNoLaterThan(op, now);
    }
  }

  lemma CutoffsUsedOlderThanADay(c: Cache, ops: seq<Op>, now: Time)
    requires 1 <= c.retentionDays
    requires forall op :: op in ops ==> ReadsNoLaterThan(op, now)
    ensures forall t :: t in CutoffsUsed(c, ops) ==> t <= now - DAY
  {
    CutoffsUsedOlderThanRetention(c, ops, now);
    assert c.retentionDays * DAY >= DAY;
  }

  /** The agent's upload window is never affected by retention: on a fresh cache, whatever
      the configured number of days, with a clock that does not go backwards. */
  lemma UploadWindowIsComplete(configuredDays: int, born: Time, ops: seq<Op>, now: Time)
    requires forall op :: op in ops ==> ReadsNoLaterThan(op, now)
    ensures var c := Fresh(configuredDays, born);
            Window(Run(c, ops).metrics, now - DAY, now) == Window(RunUnpruned(c, ops).metrics, now - DAY, now)
  {
    var c := Fresh(configuredDays, born);
    CutoffsUsedOlderThanADay(c, ops, now);
    RetentionRefinesUnboundedLog(c, ops, now - DAY);
  }

  /** After this run a query for the last `days` days finds all there ever was of them. */
  ghost predicate WholeWindow(c: Cache, ops: seq<Op>, now: Time, days: nat)
  {
    Window(Run(c, ops).metrics, now - days * DAY, now) == Window(RunUnpruned(c, ops).metrics, now - days * DAY, now)
  }

  lemma RunSnoc(c: Cache, ops: seq<Op>, op: Op)
    ensures Run(c, ops + [op]) == Apply(Run(c, ops), op)
    ensures RunUnpruned(c, ops + [op]) == ApplyUnpruned(RunUnpruned(c, ops), op)
  {
    assert (ops + [op])[..|ops|] == ops;
  }

  /** Store a measurement, and clean up when the window has just reached it. */
  function LosingRun(born: Time, days: nat): seq<Op>
  {
    var m := Metrics(0, born, "", 0.0, 0, 0, 0, 0.0, 0, 0, 0, 0.0, 0, 0, false);
    [StoreMetrics(m, born, born, born), Cleanup(born + days * DAY, born + days * DAY)]
  }

  lemma TwoCalls(c: Cache, first: Op, second: Op)
    ensures Run(c, [first, second]) == Apply(Apply(c, first), second)
    ensures RunUnpruned(c, [first, second]) == ApplyUnpruned(ApplyUnpruned(c, first), second)
  {
    RunSnoc(c, [], first);
    RunSnoc(c, [first], second);
    assert [] + [first] == [first] && [first] + [second] == [first, second];
  }

  lemma CleanupLoses(c: Cache, m: Metrics, days: nat)
    requires c.retentionDays < days && c.metrics == [m]
    ensures var now := m.timestamp + days * DAY;
            && m in Window(c.metrics, now - days * DAY, now)
            && m !in Window(Apply(c, Cleanup(now, now)).metrics, now - days * DAY, now)
  {
    var now := m.timestamp + days * DAY;
    assert c.retentionDays * DAY < days * DAY;
    CleanupKeepsExactly(c, now, now, m);
    WindowMember(c.metrics, now - days * DAY, now, m);
    WindowMember(Apply(c, Cleanup(now, now)).metrics, now - days * DAY, now, m);
  }

  lemma LosingRunLoses(configuredDays: int, born: Time, days: nat)
    requires Fresh(configuredDays, born).retentionDays < days
    ensures !WholeWindow(Fresh(configuredDays, born), LosingRun(born, days), born + days * DAY, days)
    ensures forall op :: op in LosingRun(born, days) ==> ReadsNoLaterThan(op, born + days * DAY)
  {
    var c, ops := Fresh(configuredDays, born), LosingRun(born, days);
    TwoCalls(c, ops[0], ops[1]);
    var stored := Apply(c, ops[0]);
    CleanupLoses(stored, stored.metrics[0], days);
  }

  /** The last `days` days are whole after every run, with a clock that does not go backwards,
      exactly when the retention period is at least that long. So the queue's pass over seven days
      misses nothing with the default retention, and can with any shorter one. */
  lemma WindowIsWholeExactlyWhen(configuredDays: int, born: Time, days: nat)
    ensures var c := Fresh(configuredDays, born);
            (forall ops, now :: (forall op :: op in ops ==> ReadsNoLaterThan(op, now)) ==> WholeWindow(c, ops, now, days))
            <==> days <= c.retentionDays
  {
    var c := Fresh(configuredDays, born);
    if days <= c.retentionDays {
      forall ops, now | forall op :: op in ops ==> ReadsNoLaterThan(op, now)
        ensures WholeWindow(c, ops, now, days)
      {
        CutoffsUsedOlderThanRetention(c, ops, now);
        assert days * DAY <= c.retentionDays * DAY;
        RetentionRefinesUnboundedLog(c, ops, now - days * DAY);
      }
    } else {
      LosingRunLoses(configuredDays, born, days);
    }
  }

  /** The IDs of commands whose status is pending. */
  function PendingIDs(c: Cache): set<string>
  {
    set id | id in c.commands && c.commands[id].status == STATUS_PENDING
  }

  /** Each pending command once, oldest first. */
  ghost predicate IsPendingList(c: Cache, ids: seq<string>)
  {
    && multiset(ids) == multiset(PendingIDs(c))
    && (forall id :: id in ids ==> id in c.commands)
    && forall i, j :: 0 <= i < j < |ids| ==> c.commands[ids[i]].createdAt <= c.commands[ids[j]].createdAt
  }
}

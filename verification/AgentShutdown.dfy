/**
 The running agent and its shutdown as a step system: the metrics collector, the heartbeat
 loop, three workers, the caller of `Stop` and the shutdown goroutine, sharing stop channels,
 wait groups and the cache. The initial state is the one in which `Start` returns nil.
 */
module AgentShutdown {
  import opened Clock
  import opened Counting
  import opened Sequences
  import opened Upload
  import M = CacheModel

  datatype CollectorPc =
    | Measuring                // in a cycle, snapshot not taken yet
    | Holding(m: M.Metrics)    // snapshot taken, about to be stored by the callback
    | CollectorSelect
    | CollectorExited

  datatype UploaderPc = UploaderSelect | Reading | Sending | UploaderExited

  datatype PollerPc = PollerSelect | Fetching | Storing(rest: seq<M.Received>) | PollerExited

  datatype MaintainerPc = MaintainerSelect | Maintaining | MaintainerExited

  datatype HeartbeatPc = Beating | HeartbeatSelect | HeartbeatExited

  datatype StopPc = NotCalled | Waiting | Returned

  /** The shutdown goroutine. */
  datatype ShutdownPc =
    | NotStarted
    | StopHeartbeat
    | WaitHeartbeat
    | StopMetrics
    | WaitMetrics
    | WaitWorkers
    | Flush
    | FlushSending(rest: seq<seq<Snapshot>>)
    | CloseCache
    | CloseClient
    | Finished

  datatype CacheEvent = Use | Close

  /** The program counters and the wait groups. */
  datatype Goroutines = Goroutines(
    collector: CollectorPc,
    uploader: UploaderPc,
    poller: PollerPc,
    maintainer: MaintainerPc,
    heartbeat: HeartbeatPc,
    heartbeatWg: int,
    metricsWg: int,
    agentWg: int)

  datatype Signals = Signals(
    contextDone: bool,
    agentStop: bool,
    heartbeatStop: bool,
    metricsStop: bool,
    timedOut: bool,
    clientClosed: bool,
    stop: StopPc)

  /** The clock and the cache; `log` is the cache that never forgets, and `events`, `taken` and
      `polled` are history. */
  datatype Memory = Memory(
    clock: Time,
    cache: M.Cache,
    log: M.Cache,
    events: seq<CacheEvent>,
    taken: seq<M.Metrics>,
    polled: seq<M.Received>)

  /** The history of the final flush. */
  datatype FlushRecord = FlushRecord(at: Time, sent: seq<Snapshot>, failed: bool)

  /** Configuration validation rejects any other batch size. */
  type BatchSize = n: int | 0 < n witness 1

  datatype Agent = Agent(
    g: Goroutines,
    signals: Signals,
    mem: Memory,
    shutdown: ShutdownPc,
    flush: FlushRecord,
    batchSize: BatchSize)

  datatype CollectorAction =
    | CollectorTick
    | Take(m: M.Metrics, now: Time)
    | Store(since: Time, now: Time, after: Time)
    | CollectorExit

  datatype UploaderAction = UploaderTick | UploaderRead(now: Time) | UploaderDone | UploaderExit

  datatype PollerAction =
    | PollerTick
    | PollerFetched(commands: seq<M.Received>)
    | PollerStore(now: Time)
    | PollerDone
    | PollerExit

  datatype MaintainerAction = MaintainerTick | MaintainerDone | MaintainerExit

  datatype HeartbeatAction = HeartbeatTick | HeartbeatDone | HeartbeatExit

  /** The context, the caller of `Stop` and its timeout. */
  datatype ControlAction = CancelContext | CallStop | ShutdownTimeout | StopReturns

  datatype ShutdownAction =
    | BeginStopHeartbeat
    | HeartbeatWaited
    | BeginStopMetrics
    | MetricsWaited
    | WorkersWaited
    | FlushRead(now: Time)
    | FlushSend(ok: bool)
    | FlushEnd
    | DoCloseCache
    | DoCloseClient

  datatype Action =
    | Collector(c: CollectorAction)
    | Uploader(u: UploaderAction)
    | Poller(p: PollerAction)
    | Maintainer(m: MaintainerAction)
    | Heartbeat(h: HeartbeatAction)
    | Control(x: ControlAction)
    | Shutdown(d: ShutdownAction)

  /** The agent when `Start` has returned nil, over a fresh cache. */
  function Started(configuredDays: int, batchSize: BatchSize, now: Time): Agent
  {
    var cache := M.Fresh(configuredDays, now);
    Agent(Goroutines(Measuring, UploaderSelect, PollerSelect, MaintainerSelect, Beating, 1, 1, 3),
          Signals(false, false, false, false, false, false, NotCalled),
          Memory(now, cache, cache, [], [], []),
          NotStarted,
          FlushRecord(now, [], false),
          batchSize)
  }

  /** A call that changes the cache, and the log that never forgets. */
  function Call(mem: Memory, op: M.Op, now: Time): Memory
  {
    mem.(clock := now, cache := M.Apply(mem.cache, op), log := M.ApplyUnpruned(mem.log, op),
         events := mem.events + [Use])
  }

  /** A call that only reads the cache. */
  function Query(mem: Memory, now: Time): Memory
  {
    mem.(clock := now, events := mem.events + [Use])
  }

  predicate WorkerMayExit(sig: Signals)
  {
    sig.agentStop || sig.contextDone
  }

  predicate CollectorEnabled(s: Agent, c: CollectorAction)
  {
    match c
    case CollectorTick => s.g.collector.CollectorSelect?
    case Take(m, now) => s.g.collector.Measuring? && s.mem.clock <= now && m.timestamp == now && !m.synced
    case Store(since, now, after) => s.g.collector.Holding? && s.mem.clock <= since <= now <= after
    case CollectorExit => s.g.collector.CollectorSelect? && (s.signals.metricsStop || s.signals.contextDone)
  }

  function CollectorStep(s: Agent, c: CollectorAction): Agent
    requires CollectorEnabled(s, c)
  {
    match c
    case CollectorTick => s.(g := s.g.(collector := Measuring))
    case Take(m, now) =>
      s.(g := s.g.(collector := Holding(m)), mem := s.mem.(clock := now, taken := s.mem.taken + [m]))
    case Store(since, now, after) =>
      s.(g := s.g.(collector := CollectorSelect),
         mem := Call(s.mem, M.StoreMetrics(s.g.collector.m, since, now, after), after))
    case CollectorExit => s.(g := s.g.(collector := CollectorExited, metricsWg := s.g.metricsWg - 1))
  }

  predicate UploaderEnabled(s: Agent, u: UploaderAction)
  {
    match u
    case UploaderTick => s.g.uploader.UploaderSelect?
    case UploaderRead(now) => s.g.uploader.Reading? && s.mem.clock <= now
    case UploaderDone => s.g.uploader.Sending?
    case UploaderExit => s.g.uploader.UploaderSelect? && WorkerMayExit(s.signals)
  }

  function UploaderStep(s: Agent, u: UploaderAction): Agent
    requires UploaderEnabled(s, u)
  {
    match u
    case UploaderTick => s.(g := s.g.(uploader := Reading))
    case UploaderRead(now) => s.(g := s.g.(uploader := Sending), mem := Query(s.mem, now))
    case UploaderDone => s.(g := s.g.(uploader := UploaderSelect))
    case UploaderExit => s.(g := s.g.(uploader := UploaderExited, agentWg := s.g.agentWg - 1))
  }

  predicate PollerEnabled(s: Agent, p: PollerAction)
  {
    match p
    case PollerTick => s.g.poller.PollerSelect?
    case PollerFetched(_) => s.g.poller.Fetching?
    case PollerStore(now) => s.g.poller.Storing? && s.g.poller.rest != [] && s.mem.clock <= now
    case PollerDone => s.g.poller == Storing([])
    case PollerExit => s.g.poller.PollerSelect? && WorkerMayExit(s.signals)
  }

  function PollerStep(s: Agent, p: PollerAction): Agent
    requires PollerEnabled(s, p)
  {
    match p
    case PollerTick => s.(g := s.g.(poller := Fetching))
    case PollerFetched(commands) =>
      s.(g := s.g.(poller := Storing(commands)), mem := s.mem.(polled := s.mem.polled + commands))
    case PollerStore(now) =>
      s.(g := s.g.(poller := Storing(s.g.poller.rest[1..])),
         mem := Call(s.mem, M.StoreCommand(M.PolledRecord(s.g.poller.rest[0], now)), now))
    case PollerDone => s.(g := s.g.(poller := PollerSelect))
    case PollerExit => s.(g := s.g.(poller := PollerExited, agentWg := s.g.agentWg - 1))
  }

  predicate MaintainerEnabled(s: Agent, m: MaintainerAction)
  {
    match m
    case MaintainerTick => s.g.maintainer.MaintainerSelect?
    case MaintainerDone => s.g.maintainer.Maintaining?
    case MaintainerExit => s.g.maintainer.MaintainerSelect? && WorkerMayExit(s.signals)
  }

  function MaintainerStep(s: Agent, m: MaintainerAction): Agent
    requires MaintainerEnabled(s, m)
  {
    match m
    case MaintainerTick => s.(g := s.g.(maintainer := Maintaining))
    case MaintainerDone => s.(g := s.g.(maintainer := MaintainerSelect))
    case MaintainerExit => s.(g := s.g.(maintainer := MaintainerExited, agentWg := s.g.agentWg - 1))
  }

  predicate HeartbeatEnabled(s: Agent, h: HeartbeatAction)
  {
    match h
    case HeartbeatTick => s.g.heartbeat.HeartbeatSelect?
    case HeartbeatDone => s.g.heartbeat.Beating?
    case HeartbeatExit => s.g.heartbeat.HeartbeatSelect? && (s.signals.heartbeatStop || s.signals.contextDone)
  }

  function HeartbeatStep(s: Agent, h: HeartbeatAction): Agent
    requires HeartbeatEnabled(s, h)
  {
    match h
    case HeartbeatTick => s.(g := s.g.(heartbeat := Beating))
    case HeartbeatDone => s.(g := s.g.(heartbeat := HeartbeatSelect))
    case HeartbeatExit => s.(g := s.g.(heartbeat := HeartbeatExited, heartbeatWg := s.g.heartbeatWg - 1))
  }

  predicate ControlEnabled(s: Agent, x: ControlAction)
  {
    match x
    case CancelContext => true
    case CallStop => s.signals.stop.NotCalled?
    case ShutdownTimeout => !s.signals.stop.NotCalled?
    case StopReturns => s.signals.stop.Waiting? && (s.shutdown.Finished? || s.signals.timedOut)
  }

  function ControlStep(s: Agent, x: ControlAction): Agent
    requires ControlEnabled(s, x)
  {
    match x
    case CancelContext => s.(signals := s.signals.(contextDone := true))
    case CallStop => s.(signals := s.signals.(stop := Waiting, agentStop := true), shutdown := StopHeartbeat)
    case ShutdownTimeout => s.(signals := s.signals.(timedOut := true))
    case StopReturns => s.(signals := s.signals.(stop := Returned))
  }

  predicate ShutdownEnabled(s: Agent, d: ShutdownAction)
  {
    match d
    case BeginStopHeartbeat => s.shutdown.StopHeartbeat?
    case HeartbeatWaited => s.shutdown.WaitHeartbeat? && (s.g.heartbeatWg == 0 || s.signals.timedOut)
    case BeginStopMetrics => s.shutdown.StopMetrics?
    case MetricsWaited => s.shutdown.WaitMetrics? && s.g.metricsWg == 0
    case WorkersWaited => s.shutdown.WaitWorkers? && s.g.agentWg == 0
    case FlushRead(now) => s.shutdown.Flush? && s.mem.clock <= now
    case FlushSend(_) => s.shutdown.FlushSending? && s.shutdown.rest != []
    case FlushEnd => s.shutdown == FlushSending([])
    case DoCloseCache => s.shutdown.CloseCache?
    case DoCloseClient => s.shutdown.CloseClient?
  }

  function ShutdownStep(s: Agent, d: ShutdownAction): Agent
    requires ShutdownEnabled(s, d)
  {
    match d
    case BeginStopHeartbeat => s.(signals := s.signals.(heartbeatStop := true), shutdown := WaitHeartbeat)
    case HeartbeatWaited => s.(shutdown := StopMetrics)
    case BeginStopMetrics => s.(signals := s.signals.(metricsStop := true), shutdown := WaitMetrics)
    case MetricsWaited => s.(shutdown := WaitWorkers)
    case WorkersWaited => s.(shutdown := Flush)
    case FlushRead(now) =>
      s.(shutdown := FlushSending(Batches(ToSend(s.mem.cache.metrics, now - AGENT_WINDOW, now), s.batchSize)),
         mem := Query(s.mem, now),
         flush := s.flush.(at := now))
    case FlushSend(ok) =>
      if ok then
        s.(shutdown := FlushSending(s.shutdown.rest[1..]),
           flush := s.flush.(sent := s.flush.sent + s.shutdown.rest[0]))
      else
        s.(shutdown := CloseCache, flush := s.flush.(failed := true))
    case FlushEnd => s.(shutdown := CloseCache)
    case DoCloseCache => s.(shutdown := CloseClient, mem := s.mem.(events := s.mem.events + [Close]))
    case DoCloseClient => s.(signals := s.signals.(clientClosed := true), shutdown := Finished)
  }

  predicate Enabled(s: Agent, a: Action)
  {
    match a
    case Collector(c) => CollectorEnabled(s, c)
    case Uploader(u) => UploaderEnabled(s, u)
    case Poller(p) => PollerEnabled(s, p)
    case Maintainer(m) => MaintainerEnabled(s, m)
    case Heartbeat(h) => HeartbeatEnabled(s, h)
    case Control(x) => ControlEnabled(s, x)
    case Shutdown(d) => ShutdownEnabled(s, d)
  }

  function Step(s: Agent, a: Action): Agent
    requires Enabled(s, a)
  {
    match a
    case Collector(c) => CollectorStep(s, c)
    case Uploader(u) => UploaderStep(s, u)
    case Poller(p) => PollerStep(s, p)
    case Maintainer(m) => MaintainerStep(s, m)
    case Heartbeat(h) => HeartbeatStep(s, h)
    case Control(x) => ControlStep(s, x)
    case Shutdown(d) => ShutdownStep(s, d)
  }

  ghost predicate IsRun(s: Agent, acts: seq<Action>)
    decreases |acts|
  {
    acts == [] || (Enabled(s, acts[0]) && IsRun(Step(s, acts[0]), acts[1..]))
  }

  ghost function End(s: Agent, acts: seq<Action>): Agent
    requires IsRun(s, acts)
    decreases |acts|
  {
    if acts == [] then s else End(Step(s, acts[0]), acts[1..])
  }

  // ---------- The inductive invariant ----------

  function Stage(pc: ShutdownPc): nat
  {
    match pc
    case NotStarted => 0
    case StopHeartbeat => 1
    case WaitHeartbeat => 2
    case StopMetrics => 3
    case WaitMetrics => 4
    case WaitWorkers => 5
    case Flush => 6
    case FlushSending(_) => 7
    case CloseCache => 8
    case CloseClient => 9
    case Finished => 10
  }

  /** The wait groups count the goroutines that have not exited. */
  ghost predicate Counted(g: Goroutines)
  {
    && g.heartbeatWg == One(!g.heartbeat.HeartbeatExited?)
    && g.metricsWg == One(!g.collector.CollectorExited?)
    && g.agentWg == One(!g.uploader.UploaderExited?) + One(!g.poller.PollerExited?) + One(!g.maintainer.MaintainerExited?)
  }

  /** How far the shutdown goroutine is tells who has been signalled and who has exited. */
  ghost predicate Ordered(g: Goroutines, sig: Signals, stage: nat)
  {
    && (1 <= stage <==> !sig.stop.NotCalled?)
    && (1 <= stage ==> sig.agentStop)
    && (2 <= stage ==> sig.heartbeatStop)
    && (4 <= stage ==> sig.metricsStop)
    && (5 <= stage ==> g.collector.CollectorExited?)
    && (6 <= stage ==> g.uploader.UploaderExited? && g.poller.PollerExited? && g.maintainer.MaintainerExited?)
    && (3 <= stage && !sig.timedOut ==> g.heartbeat.HeartbeatExited?)
    && (10 <= stage <==> sig.clientClosed)
  }

  /** `Stop` returns when the shutdown is over or the time for it is; the time starts with the call. */
  ghost predicate StopWaited(sig: Signals, stage: nat)
  {
    && (sig.stop.Returned? ==> stage == 10 || sig.timedOut)
    && (sig.timedOut ==> !sig.stop.NotCalled?)
  }

  /** No goroutine exits, and none is signalled, before it should. */
  ghost predicate ExitedWhenTold(g: Goroutines, sig: Signals, stage: nat)
  {
    && (g.heartbeat.HeartbeatExited? ==> sig.heartbeatStop || sig.contextDone)
    && (g.collector.CollectorExited? ==> sig.metricsStop || sig.contextDone)
    && (g.uploader.UploaderExited? || g.poller.PollerExited? || g.maintainer.MaintainerExited? ==>
          sig.agentStop || sig.contextDone)
    && (sig.agentStop ==> 1 <= stage)
    && (sig.heartbeatStop ==> 2 <= stage)
    && (sig.metricsStop ==> 4 <= stage)
  }

  /** The cache is closed once, and last of all that happens to it. */
  ghost predicate ClosedLast(events: seq<CacheEvent>, stage: nat)
  {
    if stage < 9 then Close !in events
    else events != [] && events[|events| - 1] == Close && Close !in events[..|events| - 1]
  }

  function Held(collector: CollectorPc): seq<Snapshot>
  {
    if collector.Holding? then [ToSnapshot(collector.m)] else []
  }

  /** Every snapshot taken is stored or about to be; the cache answers as the log through any
      window that starts in the last day. */
  ghost predicate Kept(mem: Memory, collector: CollectorPc)
  {
    && 1 <= mem.cache.retentionDays
    && M.Agrees(mem.cache, mem.log, mem.clock - DAY)
    && Map(mem.taken, ToSnapshot) == Map(mem.log.metrics, ToSnapshot) + Held(collector)
    && (collector.Holding? ==> !collector.m.synced)
    && (forall i :: 0 <= i < |mem.log.metrics| ==> !mem.log.metrics[i].synced)
  }

  function Unstored(poller: PollerPc): seq<M.Received>
  {
    if poller.Storing? then poller.rest else []
  }

  /** The commands in the cache are those the polls have brought, but for those about to be
      stored; each is pending, without a payload. */
  ghost predicate Polled(mem: Memory, poller: PollerPc)
  {
    var unstored := |Unstored(poller)|;
    && unstored <= |mem.polled|
    && Unstored(poller) == mem.polled[|mem.polled| - unstored..]
    && (forall i :: 0 <= i < |mem.polled| - unstored ==> mem.polled[i].commandID in mem.cache.commands)
    && (forall id :: id in mem.cache.commands ==> PolledEntry(mem, |mem.polled| - unstored, id))
  }

  ghost predicate PolledEntry(mem: Memory, stored: nat, id: string)
    requires id in mem.cache.commands && stored <= |mem.polled|
  {
    var cmd := mem.cache.commands[id];
    && cmd.commandID == id && cmd.status == M.STATUS_PENDING && cmd.payload == ""
    && M.Received(id, cmd.kind) in mem.polled[..stored]
  }

  /** The measurements taken in the 24 hours before an instant, in order. */
  function LastDay(taken: seq<M.Metrics>, end: Time): seq<M.Metrics>
  {
    Filter(taken, (m: M.Metrics) => end - AGENT_WINDOW <= m.timestamp <= end)
  }

  /** What a flush at that instant has to send. */
  function Due(taken: seq<M.Metrics>, end: Time): seq<Snapshot>
  {
    Map(LastDay(taken, end), ToSnapshot)
  }

  /** What the flush has sent and has still to send. */
  ghost predicate Flushed(shutdown: ShutdownPc, flush: FlushRecord, taken: seq<M.Metrics>)
  {
    && (Stage(shutdown) < 7 ==> flush.sent == [] && !flush.failed)
    && (shutdown.FlushSending? ==>
          !flush.failed && flush.sent + Flatten(shutdown.rest) == Due(taken, flush.at))
    && (8 <= Stage(shutdown) ==>
          && flush.sent <= Due(taken, flush.at)
          && (!flush.failed ==> flush.sent == Due(taken, flush.at)))
  }

  /** The wait groups are right, and so is the order of the shutdown. */
  ghost predicate InOrder(s: Agent)
  {
    && Counted(s.g)
    && Ordered(s.g, s.signals, Stage(s.shutdown))
    && StopWaited(s.signals, Stage(s.shutdown))
    && ExitedWhenTold(s.g, s.signals, Stage(s.shutdown))
  }

  ghost predicate Inv(s: Agent)
  {
    && InOrder(s)
    && ClosedLast(s.mem.events, Stage(s.shutdown))
    && Kept(s.mem, s.g.collector)
    && Polled(s.mem, s.g.poller)
    && Flushed(s.shutdown, s.flush, s.mem.taken)
  }

  lemma StartedInv(configuredDays: int, batchSize: BatchSize, now: Time)
    ensures Inv(Started(configuredDays, batchSize, now))
  {
  }

  /** A step that makes a call on the cache is taken only while the cache is open. */
  predicate UsesCache(a: Action)
  {
    match a
    case Collector(c) => c.Store?
    case Uploader(u) => u.UploaderRead?
    case Poller(p) => p.PollerStore?
    case Shutdown(d) => d.FlushRead?
    case _ => false
  }

  lemma UsesOnlyOpenCache(s: Agent, a: Action)
    requires Ordered(s.g, s.signals, Stage(s.shutdown)) && Enabled(s, a) && UsesCache(a)
    ensures Stage(s.shutdown) < 7
  {
  }

  /** Every use and the closing of the cache is recorded, and nothing else is. */
  lemma EventsAreRecorded(s: Agent, a: Action)
    requires Enabled(s, a)
    ensures Step(s, a).mem.events
         == if UsesCache(a) then s.mem.events + [Use]
            else if a == Shutdown(DoCloseCache) then s.mem.events + [Close]
            else s.mem.events
  {
  }

  lemma CollectorInOrder(s: Agent, c: CollectorAction)
    requires InOrder(s) && CollectorEnabled(s, c)
    ensures InOrder(CollectorStep(s, c))
  {
  }

  lemma UploaderInOrder(s: Agent, u: UploaderAction)
    requires InOrder(s) && UploaderEnabled(s, u)
    ensures InOrder(UploaderStep(s, u))
  {
  }

  lemma PollerInOrder(s: Agent, p: PollerAction)
    requires InOrder(s) && PollerEnabled(s, p)
    ensures InOrder(PollerStep(s, p))
  {
  }

  lemma MaintainerInOrder(s: Agent, m: MaintainerAction)
    requires InOrder(s) && MaintainerEnabled(s, m)
    ensures InOrder(MaintainerStep(s, m))
  {
  }

  lemma HeartbeatInOrder(s: Agent, h: HeartbeatAction)
    requires InOrder(s) && HeartbeatEnabled(s, h)
    ensures InOrder(HeartbeatStep(s, h))
  {
  }

  lemma ControlInOrder(s: Agent, x: ControlAction)
    requires InOrder(s) && ControlEnabled(s, x)
    ensures InOrder(ControlStep(s, x))
  {
  }

  lemma ShutdownInOrder(s: Agent, d: ShutdownAction)
    requires InOrder(s) && ShutdownEnabled(s, d)
    ensures InOrder(ShutdownStep(s, d))
  {
  }

  lemma StepInOrder(s: Agent, a: Action)
    requires InOrder(s) && Enabled(s, a)
    ensures InOrder(Step(s, a))
  {
    match a
    case Collector(c) => CollectorInOrder(s, c);
    case Uploader(u) => UploaderInOrder(s, u);
    case Poller(p) => PollerInOrder(s, p);
    case Maintainer(m) => MaintainerInOrder(s, m);
    case Heartbeat(h) => HeartbeatInOrder(s, h);
    case Control(x) => ControlInOrder(s, x);
    case Shutdown(d) => ShutdownInOrder(s, d);
  }

  lemma StepClosedLast(s: Agent, a: Action)
    requires Ordered(s.g, s.signals, Stage(s.shutdown)) && ClosedLast(s.mem.events, Stage(s.shutdown)) && Enabled(s, a)
    ensures ClosedLast(Step(s, a).mem.events, Stage(Step(s, a).shutdown))
  {
    if UsesCache(a) {
      UsesOnlyOpenCache(s, a);
    }
  }

  lemma CallKeepsAgreement(mem: Memory, op: M.Op, now: Time)
    requires 1 <= mem.cache.retentionDays && M.Agrees(mem.cache, mem.log, mem.clock - DAY)
    requires mem.clock <= now && M.ReadsNoLaterThan(op, now)
    ensures M.Agrees(Call(mem, op, now).cache, Call(mem, op, now).log, now - DAY)
    ensures 1 <= Call(mem, op, now).cache.retentionDays
  {
    M.AgreesFromLaterBound(mem.cache, mem.log, mem.clock - DAY, now - DAY);
    M.CutoffsOlderThanADay(mem.cache, op, now);
    M.ApplyAgrees(mem.cache, mem.log, op, now - DAY);
  }

  lemma StoreKept(mem: Memory, m: M.Metrics, since: Time, now: Time, after: Time)
    requires Kept(mem, Holding(m)) && mem.clock <= since <= now <= after
    ensures Kept(Call(mem, M.StoreMetrics(m, since, now, after), after), CollectorSelect)
  {
    var op := M.StoreMetrics(m, since, now, after);
    CallKeepsAgreement(mem, op, after);
    assert Map(M.ApplyUnpruned(mem.log, op).metrics, ToSnapshot) == Map(mem.log.metrics, ToSnapshot) + [ToSnapshot(m)];
  }

  lemma CommandKept(mem: Memory, collector: CollectorPc, cmd: M.Command, now: Time)
    requires Kept(mem, collector) && mem.clock <= now
    ensures Kept(Call(mem, M.StoreCommand(cmd), now), collector)
  {
    CallKeepsAgreement(mem, M.StoreCommand(cmd), now);
  }

  lemma TakeKept(mem: Memory, m: M.Metrics, now: Time)
    requires Kept(mem, Measuring) && mem.clock <= now && !m.synced
    ensures Kept(mem.(clock := now, taken := mem.taken + [m]), Holding(m))
  {
    M.AgreesFromLaterBound(mem.cache, mem.log, mem.clock - DAY, now - DAY);
    assert Map(mem.taken + [m], ToSnapshot) == Map(mem.taken, ToSnapshot) + [ToSnapshot(m)];
  }

  lemma QueryKept(mem: Memory, collector: CollectorPc, now: Time)
    requires Kept(mem, collector) && mem.clock <= now
    ensures Kept(Query(mem, now), collector)
  {
    M.AgreesFromLaterBound(mem.cache, mem.log, mem.clock - DAY, now - DAY);
  }

  lemma CollectorKept(s: Agent, c: CollectorAction)
    requires Kept(s.mem, s.g.collector) && CollectorEnabled(s, c)
    ensures Kept(CollectorStep(s, c).mem, CollectorStep(s, c).g.collector)
  {
    match c
    case Take(m, now) => TakeKept(s.mem, m, now);
    case Store(since, now, after) => StoreKept(s.mem, s.g.collector.m, since, now, after);
    case _ =>
  }

  lemma StepKept(s: Agent, a: Action)
    requires Kept(s.mem, s.g.collector) && Enabled(s, a)
    ensures Kept(Step(s, a).mem, Step(s, a).g.collector)
  {
    match a
    case Collector(c) => CollectorKept(s, c);
    case Uploader(u) =>
      if u.UploaderRead? {
        QueryKept(s.mem, s.g.collector, u.now);
      }
    case Poller(p) =>
      if p.PollerStore? {
        CommandKept(s.mem, s.g.collector, M.PolledRecord(s.g.poller.rest[0], p.now), p.now);
      }
    case Shutdown(d) =>
      if d.FlushRead? {
        QueryKept(s.mem, s.g.collector, d.now);
      }
    case _ =>
  }

  function WithinLastDay(snapshots: seq<Snapshot>, end: Time): seq<Snapshot>
  {
    Filter(snapshots, (x: Snapshot) => end - AGENT_WINDOW <= x.timestamp <= end)
  }

  lemma DueIsWithinLastDay(taken: seq<M.Metrics>, end: Time)
    ensures Due(taken, end) == WithinLastDay(Map(taken, ToSnapshot), end)
  {
    FilterMap(taken, (m: M.Metrics) => end - AGENT_WINDOW <= m.timestamp <= end, ToSnapshot,
              (x: Snapshot) => end - AGENT_WINDOW <= x.timestamp <= end);
  }

  lemma FetchPolled(mem: Memory, commands: seq<M.Received>)
    requires Polled(mem, Fetching)
    ensures Polled(mem.(polled := mem.polled + commands), Storing(commands))
  {
    var mem' := mem.(polled := mem.polled + commands);
    forall id | id in mem.cache.commands ensures PolledEntry(mem', |mem.polled|, id) {
      assert PolledEntry(mem, |mem.polled|, id);
      assert mem'.polled[..|mem.polled|] == mem.polled == mem.polled[..|mem.polled|];
    }
  }

  lemma StorePolled(mem: Memory, rest: seq<M.Received>, now: Time)
    requires Polled(mem, Storing(rest)) && rest != []
    ensures Polled(Call(mem, M.StoreCommand(M.PolledRecord(rest[0], now)), now), Storing(rest[1..]))
  {
    var mem' := Call(mem, M.StoreCommand(M.PolledRecord(rest[0], now)), now);
    var stored := |mem.polled| - |rest|;
    assert mem.polled[stored] == rest[0];
    assert mem.polled[..stored + 1] == mem.polled[..stored] + [rest[0]];
    forall id | id in mem'.cache.commands ensures PolledEntry(mem', stored + 1, id) {
      if id != rest[0].commandID {
        assert PolledEntry(mem, stored, id);
      }
    }
  }

  lemma PollerPolled(s: Agent, p: PollerAction)
    requires Polled(s.mem, s.g.poller) && PollerEnabled(s, p)
    ensures Polled(PollerStep(s, p).mem, PollerStep(s, p).g.poller)
  {
    match p
    case PollerFetched(commands) => FetchPolled(s.mem, commands);
    case PollerStore(now) => StorePolled(s.mem, s.g.poller.rest, now);
    case PollerTick => SamePolled(s.mem, s.g.poller, Fetching);
    case PollerDone => SamePolled(s.mem, s.g.poller, PollerSelect);
    case PollerExit => SamePolled(s.mem, s.g.poller, PollerExited);
  }

  lemma SamePolled(mem: Memory, poller: PollerPc, poller': PollerPc)
    requires Polled(mem, poller) && Unstored(poller') == Unstored(poller)
    ensures Polled(mem, poller')
  {
  }

  lemma OtherStepKeepsCommands(s: Agent, a: Action)
    requires Enabled(s, a) && !a.Poller?
    ensures var s' := Step(s, a);
            s'.mem.polled == s.mem.polled && s'.mem.cache.commands == s.mem.cache.commands && s'.g.poller == s.g.poller
  {
  }

  lemma StepPolled(s: Agent, a: Action)
    requires Polled(s.mem, s.g.poller) && Enabled(s, a)
    ensures Polled(Step(s, a).mem, Step(s, a).g.poller)
  {
    if a.Poller? {
      PollerPolled(s, a.p);
    } else {
      OtherStepKeepsCommands(s, a);
      OtherPolled(s.mem, Step(s, a).mem, s.g.poller);
    }
  }

  lemma OtherPolled(mem: Memory, mem': Memory, poller: PollerPc)
    requires Polled(mem, poller) && mem'.polled == mem.polled && mem'.cache.commands == mem.cache.commands
    ensures Polled(mem', poller)
  {
    var stored := |mem.polled| - |Unstored(poller)|;
    forall id | id in mem'.cache.commands ensures PolledEntry(mem', stored, id) {
      assert PolledEntry(mem, stored, id);
    }
  }

  lemma WindowOfUnsynced(ms: seq<M.Metrics>, end: Time)
    requires forall i :: 0 <= i < |ms| ==> !ms[i].synced
    ensures ToSend(ms, end - AGENT_WINDOW, end) == Due(ms, end)
  {
    var start := end - AGENT_WINDOW;
    var window := M.Window(ms, start, end);
    forall m | m in window ensures !m.synced {
      FilterMember(ms, (m: M.Metrics) => start <= m.timestamp <= end, m);
    }
    FilterAll(window, (m: M.Metrics) => !m.synced);
  }

  /** What the flush reads is what was taken in the last 24 hours. */
  lemma FlushReadsLastDay(mem: Memory, now: Time)
    requires Kept(mem, CollectorExited) && mem.clock <= now
    ensures ToSend(mem.cache.metrics, now - AGENT_WINDOW, now) == Due(mem.taken, now)
  {
    assert M.Window(mem.cache.metrics, now - AGENT_WINDOW, now) == M.Window(mem.log.metrics, now - AGENT_WINDOW, now);
    WindowOfUnsynced(mem.log.metrics, now);
    DueIsWithinLastDay(mem.log.metrics, now);
    DueIsWithinLastDay(mem.taken, now);
    assert Map(mem.taken, ToSnapshot) == Map(mem.log.metrics, ToSnapshot);
  }

  lemma SendFlushed(rest: seq<seq<Snapshot>>, flush: FlushRecord, taken: seq<M.Metrics>)
    requires rest != [] && Flushed(FlushSending(rest), flush, taken)
    ensures Flushed(FlushSending(rest[1..]), flush.(sent := flush.sent + rest[0]), taken)
    ensures Flushed(CloseCache, flush.(failed := true), taken)
  {
    assert flush.sent + Flatten(rest) == (flush.sent + rest[0]) + Flatten(rest[1..]);
  }

  lemma ReadFlushed(mem: Memory, flush: FlushRecord, batchSize: BatchSize, now: Time)
    requires Kept(mem, CollectorExited) && mem.clock <= now && flush.sent == [] && !flush.failed
    ensures var batches := Batches(ToSend(mem.cache.metrics, now - AGENT_WINDOW, now), batchSize);
            && Flushed(FlushSending(batches), flush.(at := now), mem.taken)
            && |batches| <= |mem.taken|
  {
    FlushReadsLastDay(mem, now);
    BatchesPartition(Due(mem.taken, now), batchSize);
    FlattenLonger(Batches(Due(mem.taken, now), batchSize));
    FilterShorter(mem.taken, (m: M.Metrics) => now - AGENT_WINDOW <= m.timestamp <= now);
  }

  lemma EndFlushed(flush: FlushRecord, taken: seq<M.Metrics>)
    requires Flushed(FlushSending([]), flush, taken)
    ensures Flushed(CloseCache, flush, taken)
  {
    assert flush.sent + Flatten([]) == flush.sent;
  }

  lemma OtherFlushed(from: ShutdownPc, to: ShutdownPc, flush: FlushRecord, taken: seq<M.Metrics>)
    requires Flushed(from, flush, taken)
    requires (Stage(from) < 7 && Stage(to) < 7) || (8 <= Stage(from) && 8 <= Stage(to))
    ensures Flushed(to, flush, taken)
  {
  }

  lemma ShutdownFlushed(s: Agent, d: ShutdownAction)
    requires Ordered(s.g, s.signals, Stage(s.shutdown)) && Kept(s.mem, s.g.collector) && ShutdownEnabled(s, d)
    requires Flushed(s.shutdown, s.flush, s.mem.taken)
    ensures var s' := ShutdownStep(s, d); Flushed(s'.shutdown, s'.flush, s'.mem.taken)
  {
    match d
    case FlushRead(now) => ReadFlushed(s.mem, s.flush, s.batchSize, now);
    case FlushSend(_) => SendFlushed(s.shutdown.rest, s.flush, s.mem.taken);
    case FlushEnd => EndFlushed(s.flush, s.mem.taken);
    case _ => OtherFlushed(s.shutdown, ShutdownStep(s, d).shutdown, s.flush, s.mem.taken);
  }

  lemma StepFlushed(s: Agent, a: Action)
    requires Ordered(s.g, s.signals, Stage(s.shutdown)) && Kept(s.mem, s.g.collector) && Enabled(s, a)
    requires Flushed(s.shutdown, s.flush, s.mem.taken)
    ensures Flushed(Step(s, a).shutdown, Step(s, a).flush, Step(s, a).mem.taken)
  {
    match a
    case Shutdown(d) => ShutdownFlushed(s, d);
    case Collector(_) =>
    case Control(_) =>
    case _ =>
  }

  lemma StepInv(s: Agent, a: Action)
    requires Inv(s) && Enabled(s, a)
    ensures Inv(Step(s, a))
  {
    StepInOrder(s, a);
    StepClosedLast(s, a);
    StepKept(s, a);
    StepPolled(s, a);
    StepFlushed(s, a);
  }

  lemma {:induction false} RunInv(s: Agent, acts: seq<Action>)
    requires Inv(s) && IsRun(s, acts)
    ensures Inv(End(s, acts))
    decreases |acts|
  {
    if acts != [] {
      StepInv(s, acts[0]);
      RunInv(Step(s, acts[0]), acts[1..]);
    }
  }

  // ---------- Main results ----------

  /** In every interleaving, whether or not `Stop` has given up waiting, nothing uses the cache
      after it is closed, and when it is closed every goroutine that could has exited. */
  lemma NoCacheUseAfterClose(configuredDays: int, batchSize: BatchSize, now: Time, acts: seq<Action>)
    requires IsRun(Started(configuredDays, batchSize, now), acts)
    ensures var s := End(Started(configuredDays, batchSize, now), acts);
            && (forall i, j :: 0 <= i < j < |s.mem.events| && s.mem.events[j] == Use ==> s.mem.events[i] != Close)
            && (Close in s.mem.events ==>
                  && s.g.collector.CollectorExited? && s.g.uploader.UploaderExited?
                  && s.g.poller.PollerExited? && s.g.maintainer.MaintainerExited?
                  && forall a :: UsesCache(a) ==> !Enabled(s, a))
  {
    StartedInv(configuredDays, batchSize, now);
    RunInv(Started(configuredDays, batchSize, now), acts);
    var s := End(Started(configuredDays, batchSize, now), acts);
    CloseIsLast(s.mem.events, Stage(s.shutdown));
  }

  lemma CloseIsLast(events: seq<CacheEvent>, stage: nat)
    requires ClosedLast(events, stage)
    ensures forall i, j :: 0 <= i < j < |events| && events[j] == Use ==> events[i] != Close
  {
    forall i | 0 <= i < |events| - 1 ensures events[i] != Close {
      assert 9 <= stage ==> events[i] == events[..|events| - 1][i];
    }
  }

  /** End-to-end delivery: once the cache is closed, what the flush sent are the measurements
      taken in the 24 hours before it, in order and with all their readings, from the first on;
      and if every upload succeeded, all of them. Whatever the retention setting, with a clock
      that does not go backwards. */
  lemma EverySnapshotOfTheLastDayIsDelivered(configuredDays: int, batchSize: BatchSize, now: Time, acts: seq<Action>)
    requires IsRun(Started(configuredDays, batchSize, now), acts)
    requires Close in End(Started(configuredDays, batchSize, now), acts).mem.events
    ensures var s := End(Started(configuredDays, batchSize, now), acts);
            var sent, due := s.flush.sent, LastDay(s.mem.taken, s.flush.at);
            && |sent| <= |due|
            && (!s.flush.failed ==> |sent| == |due|)
            && forall i :: 0 <= i < |sent| ==>
                 && sent[i].timestamp == due[i].timestamp
                 && sent[i].cpuUsagePercent == due[i].cpuUsagePercent
                 && sent[i].memoryTotal == due[i].memoryTotal
                 && sent[i].memoryUsed == due[i].memoryUsed
                 && sent[i].memoryAvailable == due[i].memoryAvailable
                 && sent[i].memoryUsagePercent == due[i].memoryUsagePercent
                 && sent[i].diskTotalBytes == due[i].diskTotalBytes
                 && sent[i].diskUsedBytes == due[i].diskUsedBytes
                 && sent[i].diskFreeBytes == due[i].diskFreeBytes
                 && sent[i].diskUsagePercent == due[i].diskUsagePercent
                 && sent[i].networkBytesReceived == due[i].networkBytesReceived
                 && sent[i].networkBytesSent == due[i].networkBytesSent
  {
    StartedInv(configuredDays, batchSize, now);
    RunInv(Started(configuredDays, batchSize, now), acts);
    var s := End(Started(configuredDays, batchSize, now), acts);
    var sent, due := s.flush.sent, LastDay(s.mem.taken, s.flush.at);
    assert sent <= Due(s.mem.taken, s.flush.at);
    forall i | 0 <= i < |sent| ensures sent[i] == ToSnapshot(due[i]) {
      assert sent[i] == Due(s.mem.taken, s.flush.at)[i];
    }
  }

  /** Being in the last day before an instant is what it says. */
  lemma LastDayMember(taken: seq<M.Metrics>, end: Time, m: M.Metrics)
    ensures m in LastDay(taken, end) <==> m in taken && end - DAY <= m.timestamp <= end
  {
    FilterMember(taken, (m: M.Metrics) => end - AGENT_WINDOW <= m.timestamp <= end, m);
  }

  /** Every command a poll has brought is stored, pending and without a payload, by the time the
      poll worker is back at its select, and so before the cache is closed; and the cache holds
      no other command. */
  lemma EveryPolledCommandIsStored(configuredDays: int, batchSize: BatchSize, now: Time, acts: seq<Action>)
    requires IsRun(Started(configuredDays, batchSize, now), acts)
    ensures var s := End(Started(configuredDays, batchSize, now), acts);
            && (s.g.poller.PollerSelect? || s.g.poller.PollerExited? ==>
                  forall r :: r in s.mem.polled ==> r.commandID in s.mem.cache.commands)
            && (Close in s.mem.events ==> s.g.poller.PollerExited?)
            && forall id :: id in s.mem.cache.commands ==>
                 && s.mem.cache.commands[id].status == "pending"
                 && s.mem.cache.commands[id].payload == ""
                 && M.Received(id, s.mem.cache.commands[id].kind) in s.mem.polled
  {
    StartedInv(configuredDays, batchSize, now);
    RunInv(Started(configuredDays, batchSize, now), acts);
    var s := End(Started(configuredDays, batchSize, now), acts);
    var stored := |s.mem.polled| - |Unstored(s.g.poller)|;
    forall id | id in s.mem.cache.commands
      ensures s.mem.cache.commands[id].status == "pending" && s.mem.cache.commands[id].payload == ""
      ensures M.Received(id, s.mem.cache.commands[id].kind) in s.mem.polled
    {
      assert PolledEntry(s.mem, stored, id);
    }
  }

  /** `Stop` waits: in every run, once it has returned short of its time limit, every goroutine
      has exited, the flush is over, and the cache and then the client have been closed; so what
      `EverySnapshotOfTheLastDayIsDelivered` says holds by then. */
  lemma StopReturnsWhenAllIsDone(configuredDays: int, batchSize: BatchSize, now: Time, acts: seq<Action>)
    requires IsRun(Started(configuredDays, batchSize, now), acts)
    requires var s := End(Started(configuredDays, batchSize, now), acts);
             s.signals.stop.Returned? && !s.signals.timedOut
    ensures var s := End(Started(configuredDays, batchSize, now), acts);
            && s.shutdown.Finished? && Close in s.mem.events && s.signals.clientClosed
            && s.g.heartbeat.HeartbeatExited? && s.g.collector.CollectorExited?
            && s.g.uploader.UploaderExited? && s.g.poller.PollerExited? && s.g.maintainer.MaintainerExited?
            && s.flush.sent <= Due(s.mem.taken, s.flush.at)
            && (!s.flush.failed ==> s.flush.sent == Due(s.mem.taken, s.flush.at))
  {
    StartedInv(configuredDays, batchSize, now);
    RunInv(Started(configuredDays, batchSize, now), acts);
  }

  /** Until `Stop` is called or the context is cancelled, no goroutine exits, nothing is flushed
      and the cache stays open; and the time limit runs only from the call. */
  lemma NothingStopsUnasked(configuredDays: int, batchSize: BatchSize, now: Time, acts: seq<Action>)
    requires IsRun(Started(configuredDays, batchSize, now), acts)
    requires var s := End(Started(configuredDays, batchSize, now), acts);
             s.signals.stop.NotCalled?
    ensures var s := End(Started(configuredDays, batchSize, now), acts);
            && s.shutdown.NotStarted? && !s.signals.timedOut && s.flush.sent == []
            && Close !in s.mem.events && !s.signals.clientClosed
            && (!s.signals.contextDone ==>
                  && !s.g.heartbeat.HeartbeatExited? && !s.g.collector.CollectorExited?
                  && !s.g.uploader.UploaderExited? && !s.g.poller.PollerExited? && !s.g.maintainer.MaintainerExited?)
  {
    StartedInv(configuredDays, batchSize, now);
    RunInv(Started(configuredDays, batchSize, now), acts);
  }

  // ---------- The shutdown ends ----------

  /** A step that is not the start of another periodic cycle, nor an outside event. */
  predicate IsQuiet(a: Action)
  {
    match a
    case Collector(c) => !c.CollectorTick?
    case Uploader(u) => !u.UploaderTick?
    case Poller(p) => !p.PollerTick?
    case Maintainer(m) => !m.MaintainerTick?
    case Heartbeat(h) => !h.HeartbeatTick?
    case Control(x) => !x.CancelContext? && !x.ShutdownTimeout?
    case Shutdown(_) => true
  }

  /** Steps left for each goroutine until its exit; `fetch` bounds the commands of one poll. */
  function CollectorLeft(pc: CollectorPc): nat
  {
    match pc case Measuring => 3 case Holding(_) => 2 case CollectorSelect => 1 case CollectorExited => 0
  }

  function UploaderLeft(pc: UploaderPc): nat
  {
    match pc case Reading => 3 case Sending => 2 case UploaderSelect => 1 case UploaderExited => 0
  }

  function PollerLeft(pc: PollerPc, fetch: nat): nat
  {
    match pc case Fetching => 3 + fetch case Storing(rest) => 2 + |rest| case PollerSelect => 1 case PollerExited => 0
  }

  function MaintainerLeft(pc: MaintainerPc): nat
  {
    match pc case Maintaining => 2 case MaintainerSelect => 1 case MaintainerExited => 0
  }

  function HeartbeatLeft(pc: HeartbeatPc): nat
  {
    match pc case Beating => 2 case HeartbeatSelect => 1 case HeartbeatExited => 0
  }

  function StopLeft(pc: StopPc): nat
  {
    match pc case NotCalled => 2 case Waiting => 1 case Returned => 0
  }

  /** Batches the flush has still to send; before it has read the cache, at most one for each
      snapshot there may be by then. */
  function FlushLeft(s: Agent): nat
  {
    if s.shutdown.FlushSending? then |s.shutdown.rest|
    else if Stage(s.shutdown) < 7 then |s.mem.taken| + One(s.g.collector.Measuring?)
    else 0
  }

  /** A bound on the quiet steps left, if no poll fetches more than `fetch` commands. */
  function StepsLeft(s: Agent, fetch: nat): nat
  {
    CollectorLeft(s.g.collector) + UploaderLeft(s.g.uploader) + PollerLeft(s.g.poller, fetch)
    + MaintainerLeft(s.g.maintainer) + HeartbeatLeft(s.g.heartbeat) + StopLeft(s.signals.stop)
    + (10 - Stage(s.shutdown)) + FlushLeft(s)
  }

  ghost predicate FetchesAtMost(a: Action, fetch: nat)
  {
    a.Poller? && a.p.PollerFetched? ==> |a.p.commands| <= fetch
  }

  lemma FlushReadNearer(s: Agent, now: Time)
    requires Inv(s) && ShutdownEnabled(s, FlushRead(now))
    ensures |ShutdownStep(s, FlushRead(now)).shutdown.rest| <= |s.mem.taken|
  {
    ReadFlushed(s.mem, s.flush, s.batchSize, now);
  }

  lemma ShutdownNearer(s: Agent, d: ShutdownAction, fetch: nat)
    requires Inv(s) && ShutdownEnabled(s, d)
    ensures StepsLeft(ShutdownStep(s, d), fetch) < StepsLeft(s, fetch)
  {
    if d.FlushRead? {
      FlushReadNearer(s, d.now);
    }
  }

  lemma CollectorNearer(s: Agent, c: CollectorAction, fetch: nat)
    requires IsQuiet(Collector(c)) && CollectorEnabled(s, c)
    ensures StepsLeft(CollectorStep(s, c), fetch) < StepsLeft(s, fetch)
  {
  }

  lemma UploaderNearer(s: Agent, u: UploaderAction, fetch: nat)
    requires IsQuiet(Uploader(u)) && UploaderEnabled(s, u)
    ensures StepsLeft(UploaderStep(s, u), fetch) < StepsLeft(s, fetch)
  {
  }

  lemma PollerNearer(s: Agent, p: PollerAction, fetch: nat)
    requires IsQuiet(Poller(p)) && PollerEnabled(s, p) && FetchesAtMost(Poller(p), fetch)
    ensures StepsLeft(PollerStep(s, p), fetch) < StepsLeft(s, fetch)
  {
  }

  lemma MaintainerNearer(s: Agent, m: MaintainerAction, fetch: nat)
    requires IsQuiet(Maintainer(m)) && MaintainerEnabled(s, m)
    ensures StepsLeft(MaintainerStep(s, m), fetch) < StepsLeft(s, fetch)
  {
  }

  lemma HeartbeatNearer(s: Agent, h: HeartbeatAction, fetch: nat)
    requires IsQuiet(Heartbeat(h)) && HeartbeatEnabled(s, h)
    ensures StepsLeft(HeartbeatStep(s, h), fetch) < StepsLeft(s, fetch)
  {
  }

  lemma ControlNearer(s: Agent, x: ControlAction, fetch: nat)
    requires InOrder(s) && IsQuiet(Control(x)) && ControlEnabled(s, x)
    ensures StepsLeft(ControlStep(s, x), fetch) < StepsLeft(s, fetch)
  {
  }

  /** Every quiet step brings the end nearer. */
  lemma QuietStepNearer(s: Agent, a: Action, fetch: nat)
    requires Inv(s) && Enabled(s, a) && IsQuiet(a) && FetchesAtMost(a, fetch)
    ensures StepsLeft(Step(s, a), fetch) < StepsLeft(s, fetch)
  {
    match a
    case Collector(c) => CollectorNearer(s, c, fetch);
    case Uploader(u) => UploaderNearer(s, u, fetch);
    case Poller(p) => PollerNearer(s, p, fetch);
    case Maintainer(m) => MaintainerNearer(s, m, fetch);
    case Heartbeat(h) => HeartbeatNearer(s, h, fetch);
    case Control(x) => ControlNearer(s, x, fetch);
    case Shutdown(d) => ShutdownNearer(s, d, fetch);
  }

  function TowardCollectorExit(s: Agent): CollectorAction
  {
    var now := s.mem.clock;
    match s.g.collector
    case Measuring => Take(M.Metrics(0, now, "", 0.0, 0, 0, 0, 0.0, 0, 0, 0, 0.0, 0, 0, false), now)
    case Holding(_) => Store(now, now, now)
    case _ => CollectorExit
  }

  function TowardWorkersExit(s: Agent): Action
  {
    if !s.g.uploader.UploaderExited? then
      match s.g.uploader
      case Reading => Uploader(UploaderRead(s.mem.clock))
      case Sending => Uploader(UploaderDone)
      case _ => Uploader(UploaderExit)
    else if !s.g.poller.PollerExited? then
      match s.g.poller
      case Fetching => Poller(PollerFetched([]))
      case Storing(rest) => Poller(if rest == [] then PollerDone else PollerStore(s.mem.clock))
      case _ => Poller(PollerExit)
    else Maintainer(if s.g.maintainer.Maintaining? then MaintainerDone else MaintainerExit)
  }

  /** A step that brings the shutdown nearer its end. */
  function TowardFinish(s: Agent): Action
  {
    match s.shutdown
    case NotStarted => Control(CallStop)
    case StopHeartbeat => Shutdown(BeginStopHeartbeat)
    case WaitHeartbeat =>
      if s.g.heartbeat.HeartbeatExited? then Shutdown(HeartbeatWaited)
      else Heartbeat(if s.g.heartbeat.Beating? then HeartbeatDone else HeartbeatExit)
    case StopMetrics => Shutdown(BeginStopMetrics)
    case WaitMetrics =>
      if s.g.collector.CollectorExited? then Shutdown(MetricsWaited) else Collector(TowardCollectorExit(s))
    case WaitWorkers => if s.g.agentWg == 0 then Shutdown(WorkersWaited) else TowardWorkersExit(s)
    case Flush => Shutdown(FlushRead(s.mem.clock))
    case FlushSending(rest) => Shutdown(if rest == [] then FlushEnd else FlushSend(true))
    case CloseCache => Shutdown(DoCloseCache)
    case CloseClient => Shutdown(DoCloseClient)
    case Finished => Control(StopReturns)
  }

  /** No wait group the shutdown waits for is held by a goroutine that cannot go on. */
  lemma TowardFinishWorks(s: Agent)
    requires InOrder(s)
    requires !(s.shutdown.Finished? && s.signals.stop.Returned?)
    ensures IsQuiet(TowardFinish(s)) && Enabled(s, TowardFinish(s)) && FetchesAtMost(TowardFinish(s), 0)
  {
  }

  /** The shutdown goroutine finishes and `Stop` returns: whenever no quiet step is left, both
      have; and the number of quiet steps that can be taken from any reachable state is bounded
      by that state, and the size of a poll's answer if one is under way. */
  lemma {:induction false} ShutdownFinishes(s: Agent, acts: seq<Action>, fetch: nat)
    requires Inv(s) && IsRun(s, acts)
    requires forall a :: a in acts ==> IsQuiet(a) && FetchesAtMost(a, fetch)
    ensures |acts| <= StepsLeft(s, fetch)
    ensures (forall a :: IsQuiet(a) ==> !Enabled(End(s, acts), a)) ==>
              End(s, acts).shutdown.Finished? && End(s, acts).signals.stop.Returned?
    decreases |acts|
  {
    if acts == [] {
      if !(s.shutdown.Finished? && s.signals.stop.Returned?) {
        TowardFinishWorks(s);
      }
    } else {
      assert IsQuiet(acts[0]) && FetchesAtMost(acts[0], fetch);
      QuietStepNearer(s, acts[0], fetch);
      StepInv(s, acts[0]);
      assert forall a :: a in acts[1..] ==> a in acts;
      ShutdownFinishes(Step(s, acts[0]), acts[1..], fetch);
    }
  }

  /** Such a run exists from every reachable state. */
  lemma {:induction false} QuietRunExists(s: Agent) returns (acts: seq<Action>)
    requires Inv(s)
    ensures IsRun(s, acts) && forall a :: a in acts ==> IsQuiet(a)
    ensures End(s, acts).shutdown.Finished? && End(s, acts).signals.stop.Returned?
    decreases StepsLeft(s, 0)
  {
    if s.shutdown.Finished? && s.signals.stop.Returned? {
      acts := [];
    } else {
      var a := TowardFinish(s);
      TowardFinishWorks(s);
      QuietStepNearer(s, a, 0);
      StepInv(s, a);
      var rest := QuietRunExists(Step(s, a));
      acts := [a] + rest;
      assert acts[1..] == rest;
    }
  }
}

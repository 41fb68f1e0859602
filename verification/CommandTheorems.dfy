/** What every interleaving of the command handler keeps, and how its runs end. */
module CommandTheorems {
  import opened Clock
  import opened Counting
  import opened Wrappers
  import opened CommandHandler
  import M = CacheModel

  lemma {:induction false} RunInv(h: Handler, acts: seq<Action>, initial: M.Cache)
    requires Inv(h, initial) && IsRun(h, acts)
    ensures Inv(End(h, acts), initial)
    decreases |acts|
  {
    if acts != [] {
      StepInv(h, acts[0], initial);
      RunInv(Step(h, acts[0]), acts[1..], initial);
    }
  }

  lemma {:induction false} RunKeepsParameters(h: Handler, acts: seq<Action>)
    requires IsRun(h, acts)
    ensures End(h, acts).json == h.json && End(h, acts).capacity == h.capacity
    decreases |acts|
  {
    if acts != [] {
      RunKeepsParameters(Step(h, acts[0]), acts[1..]);
    }
  }

  /** One life of a handler: created over any cache, resuming the pending list it found there,
      and run for any time. */
  ghost predicate IsLife(
      configured: int, json: string -> bool, cache: M.Cache, resumed: seq<string>, acts: seq<Action>)
  {
    M.IsPendingList(cache, resumed) && IsRun(NewHandler(configured, json, cache, resumed), acts)
  }

  /** Where a life has got to. */
  ghost function Life(
      configured: int, json: string -> bool, cache: M.Cache, resumed: seq<string>, acts: seq<Action>): Handler
    requires IsLife(configured, json, cache, resumed, acts)
  {
    End(NewHandler(configured, json, cache, resumed), acts)
  }

  lemma LifeInv(configured: int, json: string -> bool, cache: M.Cache, resumed: seq<string>, acts: seq<Action>)
    requires IsLife(configured, json, cache, resumed, acts)
    ensures var h := Life(configured, json, cache, resumed, acts);
            && Inv(h, cache) && h.json == json
            && h.capacity == (if configured <= 0 then DEFAULT_CONCURRENCY else configured)
  {
    InitialInv(configured, json, cache, resumed);
    RunInv(NewHandler(configured, json, cache, resumed), acts, cache);
    RunKeepsParameters(NewHandler(configured, json, cache, resumed), acts);
  }

  // ---------- Pool and wait group ----------

  /** In every reachable state the tokens in the pool are the goroutines between acquiring
      and releasing a slot, never more than the configured number, which is at least one;
      and the wait group counts the live goroutines. */
  lemma PoolAndWaitGroup(configured: int, json: string -> bool, cache: M.Cache, resumed: seq<string>, acts: seq<Action>)
    requires IsLife(configured, json, cache, resumed, acts)
    ensures var h := Life(configured, json, cache, resumed, acts);
            && 1 <= h.capacity == (if configured <= 0 then 5 else configured)
            && h.pool <= h.capacity
            && h.pool == |set id | id in h.phases && h.phases[id] in {Running, Submitted, Marked}|
            && h.wg == |set id | id in h.phases && h.phases[id] !in {Stored, Done, Cancelled}|
  {
    LifeInv(configured, json, cache, resumed, acts);
    CountedByPhase(Life(configured, json, cache, resumed, acts));
  }

  lemma CountedByPhase(h: Handler)
    ensures Holders(h) == set id | id in h.phases && h.phases[id] in {Running, Submitted, Marked}
    ensures Live(h) == set id | id in h.phases && h.phases[id] !in {Stored, Done, Cancelled}
  {
  }

  // ---------- Resuming ----------

  /** Exactly when resuming launches a command found in the cache, for every cache and at every
      moment of every run: once it is past it in the list, if it is pending and decodes, and
      then once. One that is not launched is not submitted either, and keeps its record. */
  lemma ResumingLaunchesExactly(
      configured: int, json: string -> bool, cache: M.Cache, resumed: seq<string>, acts: seq<Action>, id: string)
    requires IsLife(configured, json, cache, resumed, acts) && id in cache.commands
    ensures var h := Life(configured, json, cache, resumed, acts);
            var resumable := cache.commands[id].status == "pending" && json(cache.commands[id].payload);
            && h.launched[id] == One(resumable && id !in h.backlog)
            && (h.backlog == [] ==> h.launched[id] == One(resumable))
            && (h.launched[id] == 0 ==>
                  h.submitted[id] == 0 && id in h.cache.commands && h.cache.commands[id] == cache.commands[id])
  {
    var h := Life(configured, json, cache, resumed, acts);
    LifeInv(configured, json, cache, resumed, acts);
    assert Inherited(h, cache, id);
    if id in h.phases {
      assert Tracked(h, id);
    } else {
      assert Known(h, cache, id);
    }
  }

  /** As the empty text does not decode, `ProcessPendingCommands` skips every command the poll
      worker stored: in no run is such a command launched, and it stays pending for ever. */
  lemma PolledCommandsAreNeverLaunched(
      configured: int, json: string -> bool, cache: M.Cache, resumed: seq<string>, acts: seq<Action>,
      id: string, kind: string, now: Time)
    requires !json("")
    requires var stored := M.Apply(cache, M.StoreCommand(M.PolledRecord(M.Received(id, kind), now)));
             IsLife(configured, json, stored, resumed, acts)
    ensures var stored := M.Apply(cache, M.StoreCommand(M.PolledRecord(M.Received(id, kind), now)));
            var h := Life(configured, json, stored, resumed, acts);
            h.launched[id] == 0 && h.submitted[id] == 0 && id in M.PendingIDs(h.cache)
  {
    var stored := M.Apply(cache, M.StoreCommand(M.PolledRecord(M.Received(id, kind), now)));
    ResumingLaunchesExactly(configured, json, stored, resumed, acts, id);
  }

  // ---------- Conservation ----------

  /** Commands in one of these phases are not complete. */
  predicate NotComplete(phase: Phase)
  {
    !IsComplete(phase)
  }

  predicate InCancelled(phase: Phase) { phase.Cancelled? }

  predicate InStored(phase: Phase) { phase.Stored? }

  /** Pending commands of the initial cache that have not been resumed: still in the list, or
      not decoding. */
  function NotResumed(h: Handler, initial: M.Cache): set<string>
  {
    set id | id in initial.commands && initial.commands[id].status == M.STATUS_PENDING
             && (id in h.backlog || !h.json(initial.commands[id].payload))
  }

  /** From any cache, in every interleaving: no command is lost or invented; a command the
      handler has taken up is pending until it is marked; it is launched once if at all; and it
      is marked complete only after exactly one attempt to submit its result. From an empty
      cache the pending commands are thus exactly those not yet marked. */
  lemma CommandsAreConserved(
      configured: int, json: string -> bool, cache: M.Cache, resumed: seq<string>, acts: seq<Action>)
    requires IsLife(configured, json, cache, resumed, acts)
    ensures var h := Life(configured, json, cache, resumed, acts);
            && h.cache.commands.Keys == cache.commands.Keys + h.phases.Keys
            && M.PendingIDs(h.cache) == Those(h.phases, NotComplete) + NotResumed(h, cache)
            && forall id :: id in h.phases ==>
                 && h.submitted[id] <= 1
                 && h.launched[id] <= 1
                 && (h.cache.commands[id].status != M.STATUS_PENDING ==> h.submitted[id] == 1 && h.launched[id] == 1)
  {
    var h := Life(configured, json, cache, resumed, acts);
    LifeInv(configured, json, cache, resumed, acts);
    KeysAreConserved(h, cache);
    forall id ensures id in M.PendingIDs(h.cache) <==> id in Those(h.phases, NotComplete) + NotResumed(h, cache) {
      PendingExactlyWhen(h, cache, id);
    }
    assert forall id :: id in h.phases ==> Tracked(h, id);
  }

  lemma KeysAreConserved(h: Handler, initial: M.Cache)
    requires Inv(h, initial)
    ensures h.cache.commands.Keys == initial.commands.Keys + h.phases.Keys
  {
    forall id ensures id in h.cache.commands <==> id in initial.commands || id in h.phases {
      assert Known(h, initial, id);
      assert id in h.phases ==> Tracked(h, id);
      assert id in initial.commands ==> Inherited(h, initial, id);
    }
  }

  lemma PendingExactlyWhen(h: Handler, initial: M.Cache, id: string)
    requires Inv(h, initial)
    ensures id in M.PendingIDs(h.cache) <==> id in Those(h.phases, NotComplete) || id in NotResumed(h, initial)
  {
    assert Known(h, initial, id);
    assert id in h.phases ==> Tracked(h, id);
    assert id in initial.commands ==> Inherited(h, initial, id);
  }

  /** Once the wait group is back to zero, as it is when the wait inside `Stop` ends, the
      pending commands are exactly those cancelled before getting a slot, those `HandleCommand`
      has stored but not launched, and those found in the cache and not resumed. */
  lemma PendingWhenDrained(
      configured: int, json: string -> bool, cache: M.Cache, resumed: seq<string>, acts: seq<Action>)
    requires IsLife(configured, json, cache, resumed, acts)
    requires Life(configured, json, cache, resumed, acts).wg == 0
    ensures var h := Life(configured, json, cache, resumed, acts);
            && M.PendingIDs(h.cache)
               == Those(h.phases, InCancelled) + Those(h.phases, InStored) + NotResumed(h, cache)
            && forall id :: id in h.phases ==>
                 h.phases[id].Cancelled? || h.phases[id].Stored? || (h.phases[id].Done? && h.submitted[id] == 1)
  {
    var h := Life(configured, json, cache, resumed, acts);
    LifeInv(configured, json, cache, resumed, acts);
    CommandsAreConserved(configured, json, cache, resumed, acts);
    forall id | id in h.phases
      ensures h.phases[id].Cancelled? || h.phases[id].Stored? || (h.phases[id].Done? && h.submitted[id] == 1)
    {
      DrainedPhase(h, cache, id);
    }
    UnfinishedWhenDrained(h.phases);
  }

  lemma UnfinishedWhenDrained(phases: map<string, Phase>)
    requires forall id :: id in phases ==> phases[id].Cancelled? || phases[id].Stored? || phases[id].Done?
    ensures Those(phases, NotComplete) == Those(phases, InCancelled) + Those(phases, InStored)
  {
  }

  lemma DrainedPhase(h: Handler, initial: M.Cache, id: string)
    requires Inv(h, initial) && h.wg == 0 && id in h.phases
    ensures h.phases[id].Cancelled? || h.phases[id].Stored? || (h.phases[id].Done? && h.submitted[id] == 1)
  {
    assert Live(h) == {};
    assert id !in Live(h);
    assert Tracked(h, id);
  }

  // ---------- What `Stop` returns ----------

  lemma {:induction false} RunAppend(h: Handler, acts: seq<Action>, a: Action)
    requires IsRun(h, acts + [a])
    ensures IsRun(h, acts) && Enabled(End(h, acts), a)
    ensures End(h, acts + [a]) == Step(End(h, acts), a)
    decreases |acts|
  {
    if acts != [] {
      assert (acts + [a])[0] == acts[0] && (acts + [a])[1..] == acts[1..] + [a];
      RunAppend(Step(h, acts[0]), acts[1..], a);
    } else {
      assert acts + [a] == [a] && [a][1..] == [];
    }
  }

  /** A run that ends with `Stop` having returned nil contains the moment it did. */
  lemma {:induction false} NilWasReturned(h: Handler, acts: seq<Action>) returns (k: nat)
    requires IsRun(h, acts) && h.stopCall != ReturnedNil && End(h, acts).stopCall == ReturnedNil
    ensures k < |acts| && acts[k] == StopReturns && IsRun(h, acts[..k + 1])
    decreases |acts|
  {
    var h' := Step(h, acts[0]);
    if h'.stopCall == ReturnedNil {
      k := 0;
      assert acts[..1] == [acts[0]] && [acts[0]][1..] == [];
    } else {
      var j := NilWasReturned(h', acts[1..]);
      k := j + 1;
      assert acts[..k + 1][0] == acts[0] && acts[..k + 1][1..] == acts[1..][..j + 1];
    }
  }

  /** `Stop` waits: whenever it has returned nil, in any life, there was a moment at which it
      did, and then no goroutine was live, every command taken up was done with one submission,
      cancelled, or stored and not launched, and the pending commands were the last two and those
      found in the cache and not resumed. */
  lemma NilMeansDrained(
      configured: int, json: string -> bool, cache: M.Cache, resumed: seq<string>, acts: seq<Action>) returns (k: nat)
    requires IsLife(configured, json, cache, resumed, acts)
    requires Life(configured, json, cache, resumed, acts).stopCall == ReturnedNil
    ensures k < |acts| && acts[k] == StopReturns && IsLife(configured, json, cache, resumed, acts[..k + 1])
    ensures var h := Life(configured, json, cache, resumed, acts[..k + 1]);
            && h.cancelled && h.wg == 0 && h.pool == 0
            && (forall id :: id in h.phases ==>
                 h.phases[id].Cancelled? || h.phases[id].Stored? || (h.phases[id].Done? && h.submitted[id] == 1))
            && M.PendingIDs(h.cache)
               == Those(h.phases, InCancelled) + Those(h.phases, InStored) + NotResumed(h, cache)
  {
    var start := NewHandler(configured, json, cache, resumed);
    k := NilWasReturned(start, acts);
    assert acts[..k + 1] == acts[..k] + [StopReturns];
    RunAppend(start, acts[..k], StopReturns);
    LifeInv(configured, json, cache, resumed, acts[..k + 1]);
    PendingWhenDrained(configured, json, cache, resumed, acts[..k + 1]);
    NoSlotHeldWhenDrained(Life(configured, json, cache, resumed, acts[..k + 1]));
  }

  lemma NoSlotHeldWhenDrained(h: Handler)
    requires Accounting(h) && h.wg == 0
    ensures h.pool == 0
  {
    forall id ensures id !in Holders(h) {
      assert Live(h) == {};
      assert id !in Live(h);
    }
    assert Holders(h) == {};
  }

  // ---------- Records ----------

  /** Accepting a command stores it as it came, pending, and changes no other record; one whose
      payload cannot be encoded leaves no trace. */
  lemma HandleCommandStores(h: Handler, id: string, kind: string, encoded: Option<string>, now: Time)
    requires Enabled(h, HandleCommand(id, kind, encoded, now))
    ensures var h' := Step(h, HandleCommand(id, kind, encoded, now));
            && (encoded.None? ==> h' == h)
            && (encoded.Some? ==>
                  && h'.cache.commands.Keys == h.cache.commands.Keys + {id}
                  && h'.cache.commands[id].commandID == id
                  && h'.cache.commands[id].kind == kind
                  && h'.cache.commands[id].payload == encoded.value
                  && h'.cache.commands[id].status == "pending"
                  && h'.cache.commands[id].createdAt == now
                  && h'.phases == h.phases[id := Stored]
                  && forall other :: other in h.cache.commands ==>
                       h'.cache.commands[other] == h.cache.commands[other])
  {
  }

  /** What a stored command is, no run changes: its identity, type, payload and age. */
  lemma {:induction false} RecordsKeep(h: Handler, acts: seq<Action>, id: string)
    requires IsRun(h, acts) && id in h.cache.commands
    ensures id in End(h, acts).cache.commands
    ensures var before, after := h.cache.commands[id], End(h, acts).cache.commands[id];
            && after.id == before.id && after.commandID == before.commandID && after.kind == before.kind
            && after.payload == before.payload && after.createdAt == before.createdAt
    decreases |acts|
  {
    if acts != [] {
      RecordsKeep(Step(h, acts[0]), acts[1..], id);
    }
  }

  // ---------- Restart ----------

  /** A second life over the cache the first one left. */
  ghost predicate IsRestart(
      configured: int, json: string -> bool, cache: M.Cache, resumed: seq<string>, acts: seq<Action>,
      configured': int, resumed': seq<string>, acts': seq<Action>)
  {
    && IsLife(configured, json, cache, resumed, acts)
    && IsLife(configured', json, Life(configured, json, cache, resumed, acts).cache, resumed', acts')
  }

  /** Whatever state the first life ended in, a crash included, and whatever cache it began
      with: when the resuming loop of the second is done, each command the first had taken up
      has been launched again exactly once if it was not complete, and otherwise not at all. */
  lemma RestartLaunchesExactlyTheUnfinished(
      configured: int, json: string -> bool, cache: M.Cache, resumed: seq<string>, acts: seq<Action>,
      configured': int, resumed': seq<string>, acts': seq<Action>)
    requires IsRestart(configured, json, cache, resumed, acts, configured', resumed', acts')
    requires var h := Life(configured, json, cache, resumed, acts);
             Life(configured', json, h.cache, resumed', acts').backlog == []
    ensures var h := Life(configured, json, cache, resumed, acts);
            var h' := Life(configured', json, h.cache, resumed', acts');
            forall id :: id in h.phases ==> h'.launched[id] == One(!IsComplete(h.phases[id]))
  {
    var h := Life(configured, json, cache, resumed, acts);
    LifeInv(configured, json, cache, resumed, acts);
    forall id | id in h.phases
      ensures Life(configured', json, h.cache, resumed', acts').launched[id] == One(!IsComplete(h.phases[id]))
    {
      assert Tracked(h, id);
      ResumingLaunchesExactly(configured', json, h.cache, resumed', acts', id);
    }
  }

  /** In particular, after a stop that drained the handler and left nothing half-launched, each
      command cancelled in the first life is launched exactly once, and no other it had taken up. */
  lemma RestartLaunchesExactlyTheCancelled(
      configured: int, json: string -> bool, cache: M.Cache, resumed: seq<string>, acts: seq<Action>,
      configured': int, resumed': seq<string>, acts': seq<Action>)
    requires IsRestart(configured, json, cache, resumed, acts, configured', resumed', acts')
    requires var h := Life(configured, json, cache, resumed, acts);
             && h.wg == 0 && Those(h.phases, InStored) == {}
             && Life(configured', json, h.cache, resumed', acts').backlog == []
    ensures var h := Life(configured, json, cache, resumed, acts);
            var h' := Life(configured', json, h.cache, resumed', acts');
            forall id :: id in h.phases ==> h'.launched[id] == One(id in Those(h.phases, InCancelled))
  {
    var h := Life(configured, json, cache, resumed, acts);
    RestartLaunchesExactlyTheUnfinished(configured, json, cache, resumed, acts, configured', resumed', acts');
    PendingWhenDrained(configured, json, cache, resumed, acts);
    assert forall id :: id in h.phases && h.phases[id].Stored? ==> id in Those(h.phases, InStored);
  }

  // ---------- Progress and termination ----------

  /** A step of a goroutine. */
  predicate IsGoroutineStep(a: Action)
  {
    a.Acquire? || a.Abort? || a.Submit? || a.Mark? || a.Release? || a.Finish?
  }

  /** A step that needs no new command and no caller of `Stop`. */
  predicate IsInternal(a: Action)
  {
    IsGoroutineStep(a) || a.Launch? || a.ResumeNext?
  }

  /** Whenever a goroutine is live, some goroutine can take a step: a full pool never
      blocks every one of them. */
  lemma SomeGoroutineCanStep(h: Handler, initial: M.Cache) returns (a: Action)
    requires Inv(h, initial) && 0 < h.wg
    ensures IsGoroutineStep(a) && Enabled(h, a)
  {
    assert Live(h) != {};
    if Holders(h) != {} {
      var id :| id in Holders(h);
      a := match h.phases[id]
           case Running => Submit(id)
           case Submitted => Mark(id, 0)
           case _ => Release(id);
    } else {
      var id :| id in Live(h);
      assert id !in Holders(h);
      a := if h.phases[id].Waiting? then Acquire(id) else Finish(id);
    }
  }

  function Weight(phase: Phase): nat
  {
    match phase
    case Stored => 7
    case Waiting => 6
    case Running => 5
    case Submitted => 4
    case Marked => 3
    case Released => 2
    case Aborting => 1
    case Done => 0
    case Cancelled => 0
  }

  const HEAVIEST := 7

  /** How many commands weigh at least so much. */
  function LevelCount(phases: map<string, Phase>, level: nat): nat
  {
    |Those(phases, (p: Phase) => level <= Weight(p))|
  }

  /** The sum of the weights, counted level by level. */
  function LevelsFrom(phases: map<string, Phase>, level: nat): nat
    requires level <= HEAVIEST + 1
    decreases HEAVIEST + 1 - level
  {
    if level == HEAVIEST + 1 then 0
    else LevelCount(phases, level) + LevelsFrom(phases, level + 1)
  }

  /** What bounds the number of internal steps left. */
  function Measure(h: Handler): nat
  {
    LevelsFrom(h.phases, 1) + HEAVIEST * |h.backlog|
  }

  function WeightAbove(w: int, level: nat): nat
  {
    if level <= w then w + 1 - level else 0
  }

  function OldWeight(phases: map<string, Phase>, id: string): int
  {
    if id in phases then Weight(phases[id]) else -1
  }

  lemma UpdateLevelCount(phases: map<string, Phase>, id: string, to: Phase, level: nat)
    ensures LevelCount(phases[id := to], level)
         == LevelCount(phases, level) + One(level <= Weight(to)) - One(level <= OldWeight(phases, id))
  {
    UpdateCount(phases, id, to, (p: Phase) => level <= Weight(p));
  }

  lemma {:induction false} UpdateLevels(phases: map<string, Phase>, id: string, to: Phase, level: nat)
    requires level <= HEAVIEST + 1
    ensures LevelsFrom(phases[id := to], level)
         == LevelsFrom(phases, level) + WeightAbove(Weight(to), level) - WeightAbove(OldWeight(phases, id), level)
    decreases HEAVIEST + 1 - level
  {
    if level <= HEAVIEST {
      UpdateLevelCount(phases, id, to, level);
      UpdateLevels(phases, id, to, level + 1);
    }
  }

  lemma InternalStepLightens(h: Handler, a: Action)
    requires IsInternal(a) && Enabled(h, a) && !a.ResumeNext?
    ensures var id := Subject(h, a).value;
            id in h.phases && Weight(Step(h, a).phases[id]) < Weight(h.phases[id]) && Step(h, a).backlog == h.backlog
  {
  }

  /** Every internal step decreases the measure. */
  lemma InternalStepDecreases(h: Handler, a: Action, initial: M.Cache)
    requires Inv(h, initial) && IsInternal(a) && Enabled(h, a)
    ensures Measure(Step(h, a)) < Measure(h)
  {
    StepMovesSubject(h, a);
    if a.ResumeNext? {
      assert h.backlog[0] in h.backlog;
    } else {
      InternalStepLightens(h, a);
    }
    if Subject(h, a).Some? {
      var id := Subject(h, a).value;
      UpdateLevels(h.phases, id, Step(h, a).phases[id], 1);
    }
  }

  /** No run without new commands is longer than the measure of the state it starts in. */
  lemma {:induction false} InternalRunsAreBounded(h: Handler, acts: seq<Action>, initial: M.Cache)
    requires Inv(h, initial) && IsRun(h, acts)
    requires forall a :: a in acts ==> IsInternal(a)
    ensures |acts| <= Measure(h)
    decreases |acts|
  {
    if acts != [] {
      InternalStepDecreases(h, acts[0], initial);
      StepInv(h, acts[0], initial);
      assert forall a :: a in acts[1..] ==> a in acts;
      InternalRunsAreBounded(Step(h, acts[0]), acts[1..], initial);
    }
  }

  /** The wait inside `Stop` ends: whatever a handler has been through, when `Stop` has been
      called, no new command arrives and no internal step is left to take, `Stop` can return
      nil with no command left half-launched; and that point is reached after at most
      `Measure` internal steps. */
  lemma StopReturnsAfterBoundedRun(h: Handler, acts: seq<Action>, initial: M.Cache)
    requires Inv(h, initial) && h.stopCall == Draining
    requires IsRun(h, acts) && forall a :: a in acts ==> IsInternal(a)
    requires forall a :: IsInternal(a) ==> !Enabled(End(h, acts), a)
    ensures |acts| <= Measure(h)
    ensures Enabled(End(h, acts), StopReturns)
    ensures Those(End(h, acts).phases, InStored) == {} && End(h, acts).backlog == []
  {
    var h' := End(h, acts);
    InternalRunsAreBounded(h, acts, initial);
    RunInv(h, acts, initial);
    InternalStepsKeepStopCall(h, acts);
    if 0 < h'.wg {
      var a := SomeGoroutineCanStep(h', initial);
      assert IsInternal(a);
    }
    forall id ensures id !in Those(h'.phases, InStored) {
      assert !Enabled(h', Launch(id));
    }
    if h'.backlog != [] {
      assert h'.backlog[0] in h'.backlog;
      assert Inherited(h', initial, h'.backlog[0]);
      assert Enabled(h', ResumeNext);
    }
  }

  /** Such a run exists from every state. */
  lemma {:induction false} DrainingRunExists(h: Handler, initial: M.Cache) returns (acts: seq<Action>)
    requires Inv(h, initial)
    ensures IsRun(h, acts) && forall a :: a in acts ==> IsInternal(a)
    ensures forall a :: IsInternal(a) ==> !Enabled(End(h, acts), a)
    decreases Measure(h)
  {
    if a :| IsInternal(a) && Enabled(h, a) {
      InternalStepDecreases(h, a, initial);
      StepInv(h, a, initial);
      var rest := DrainingRunExists(Step(h, a), initial);
      acts := [a] + rest;
      assert acts[1..] == rest;
    } else {
      acts := [];
    }
  }

  lemma {:induction false} InternalStepsKeepStopCall(h: Handler, acts: seq<Action>)
    requires IsRun(h, acts) && forall a :: a in acts ==> IsInternal(a)
    ensures End(h, acts).stopCall == h.stopCall
    decreases |acts|
  {
    if acts != [] {
      assert IsInternal(acts[0]);
      assert forall a :: a in acts[1..] ==> a in acts;
      InternalStepsKeepStopCall(Step(h, acts[0]), acts[1..]);
    }
  }
}

/**
 The command handler as a step system. Each accepted command is handled by a goroutine of
 its own; the goroutines share a bounded worker pool, a wait group, a cancellation signal
 and the cache. A run is any interleaving of their atomic steps with calls of
 `HandleCommand`, the loop of `ProcessPendingCommands`, and calls of `Stop`, one at a time.
 */
module CommandHandler {
  import opened Clock
  import opened Counting
  import opened Sequences
  import opened Wrappers
  import M = CacheModel

  /** Where one command is. */
  datatype Phase =
    | Stored      // in the cache, its goroutine not launched yet
    | Waiting     // launched, at the select between a slot and cancellation
    | Running     // has a slot; looking up and running the executor
    | Submitted   // result submission attempted once
    | Marked      // marked complete in the cache, slot not released yet
    | Released    // slot released, wait group not decremented yet
    | Aborting    // saw the cancellation, wait group not decremented yet
    | Done
    | Cancelled

  datatype StopCall = NotCalled | Draining | ReturnedNil | ReturnedTimeout

  /** `json` says which payload texts decode; `launched` and `submitted` are history. */
  datatype Handler = Handler(
    capacity: int,
    json: string -> bool,
    phases: map<string, Phase>,
    pool: int,
    wg: int,
    cancelled: bool,
    stopCall: StopCall,
    backlog: seq<string>,
    cache: M.Cache,
    launched: multiset<string>,
    submitted: multiset<string>)

  datatype Action =
    | HandleCommand(id: string, kind: string, encoded: Option<string>, now: Time)
    | Launch(id: string)
    | ResumeNext
    | Acquire(id: string)
    | Abort(id: string)
    | Submit(id: string)
    | Mark(id: string, now: Time)
    | Release(id: string)
    | Finish(id: string)
    | Stop
    | StopReturns
    | StopTimesOut

  const DEFAULT_CONCURRENCY := 5

  /** A new handler over a cache. `resumed` is the list `ProcessPendingCommands` loops over. */
  function NewHandler(configured: int, json: string -> bool, cache: M.Cache, resumed: seq<string>): Handler
  {
    Handler(if configured <= 0 then DEFAULT_CONCURRENCY else configured,
            json, map[], 0, 0, false, NotCalled, resumed, cache, multiset{}, multiset{})
  }

  predicate At(h: Handler, id: string, phase: Phase)
  {
    id in h.phases && h.phases[id] == phase
  }

  /** Command IDs are distinct, and encoding yields text that decodes. */
  predicate Enabled(h: Handler, a: Action)
  {
    match a
    case HandleCommand(id, _, encoded, _) =>
      id !in h.cache.commands && (encoded.Some? ==> h.json(encoded.value))
    case Launch(id) => At(h, id, Stored)
    case ResumeNext => h.backlog != [] && h.backlog[0] in h.cache.commands
    case Acquire(id) => At(h, id, Waiting) && h.pool < h.capacity
    case Abort(id) => At(h, id, Waiting) && h.cancelled
    case Submit(id) => At(h, id, Running)
    case Mark(id, _) => At(h, id, Submitted)
    case Release(id) => At(h, id, Marked)
    case Finish(id) => At(h, id, Released) || At(h, id, Aborting)
    case Stop => h.stopCall != Draining
    case StopReturns => h.stopCall == Draining && h.wg == 0
    case StopTimesOut => h.stopCall == Draining
  }

  function Move(h: Handler, id: string, phase: Phase): Handler
  {
    h.(phases := h.phases[id := phase])
  }

  function Step(h: Handler, a: Action): Handler
    requires Enabled(h, a)
  {
    match a
    case HandleCommand(id, kind, encoded, now) =>
      if encoded.None? then h
      else
        var cmd := M.Command(0, id, kind, encoded.value, M.STATUS_PENDING, "", now, M.ZERO_TIME);
        Move(h, id, Stored).(cache := M.Apply(h.cache, M.StoreCommand(cmd)))
    case Launch(id) =>
      Move(h, id, Waiting).(wg := h.wg + 1, launched := h.launched + multiset{id})
    case ResumeNext =>
      var id, rest := h.backlog[0], h.backlog[1..];
      if h.json(h.cache.commands[id].payload) then
        Move(h, id, Waiting).(backlog := rest, wg := h.wg + 1, launched := h.launched + multiset{id})
      else h.(backlog := rest)
    case Acquire(id) => Move(h, id, Running).(pool := h.pool + 1)
    case Abort(id) => Move(h, id, Aborting)
    case Submit(id) => Move(h, id, Submitted).(submitted := h.submitted + multiset{id})
    case Mark(id, now) => Move(h, id, Marked).(cache := M.Apply(h.cache, M.MarkCommandComplete(id, now)))
    case Release(id) => Move(h, id, Released).(pool := h.pool - 1)
    case Finish(id) => Move(h, id, if h.phases[id] == Released then Done else Cancelled).(wg := h.wg - 1)
    case Stop => h.(cancelled := true, stopCall := Draining)
    case StopReturns => h.(stopCall := ReturnedNil)
    case StopTimesOut => h.(stopCall := ReturnedTimeout)
  }

  ghost predicate IsRun(h: Handler, acts: seq<Action>)
    decreases |acts|
  {
    acts == [] || (Enabled(h, acts[0]) && IsRun(Step(h, acts[0]), acts[1..]))
  }

  ghost function End(h: Handler, acts: seq<Action>): Handler
    requires IsRun(h, acts)
    decreases |acts|
  {
    if acts == [] then h else End(Step(h, acts[0]), acts[1..])
  }

  // ---------- Counting commands by phase ----------

  predicate HoldsSlot(phase: Phase)
  {
    phase.Running? || phase.Submitted? || phase.Marked?
  }

  predicate IsLive(phase: Phase)
  {
    phase.Waiting? || HoldsSlot(phase) || phase.Released? || phase.Aborting?
  }

  /** Goroutines between acquiring a slot and releasing it. */
  function Holders(h: Handler): set<string>
  {
    Those(h.phases, HoldsSlot)
  }

  /** Goroutines launched and not finished. */
  function Live(h: Handler): set<string>
  {
    Those(h.phases, IsLive)
  }

  // ---------- The inductive invariant ----------

  /** Pool tokens and the wait group count exactly what they should. */
  ghost predicate Accounting(h: Handler)
  {
    && 1 <= h.capacity
    && h.pool == |Holders(h)| <= h.capacity
    && h.wg == |Live(h)|
  }

  predicate ResultSent(phase: Phase)
  {
    phase.Submitted? || IsComplete(phase)
  }

  predicate IsComplete(phase: Phase)
  {
    phase.Marked? || phase.Released? || phase.Done?
  }

  /** What the phase of an accepted command says about the cache and the history. */
  ghost predicate Tracked(h: Handler, id: string)
    requires id in h.phases
  {
    var phase := h.phases[id];
    && id in h.cache.commands
    && h.json(h.cache.commands[id].payload)
    && (h.cache.commands[id].status == M.STATUS_PENDING <==> !IsComplete(phase))
    && h.submitted[id] == One(ResultSent(phase))
    && h.launched[id] == One(!phase.Stored?)
    && (phase.Aborting? || phase.Cancelled? ==> h.cancelled)
  }

  /** What is known of a command that was in the cache when the handler was created. */
  ghost predicate Inherited(h: Handler, initial: M.Cache, id: string)
    requires id in initial.commands
  {
    var record := initial.commands[id];
    && (id !in h.phases ==> id in h.cache.commands && h.cache.commands[id] == record)
    && (id in h.phases ==> record.status == M.STATUS_PENDING && h.json(record.payload) && !h.phases[id].Stored?)
    && (record.status == M.STATUS_PENDING ==> id in h.backlog || id in h.phases || !h.json(record.payload))
  }

  ghost predicate BacklogOk(h: Handler, initial: M.Cache)
  {
    && (forall id :: id in h.backlog ==>
          id in initial.commands && id !in h.phases && initial.commands[id].status == M.STATUS_PENDING)
    && forall i, j :: 0 <= i < j < |h.backlog| ==> h.backlog[i] != h.backlog[j]
  }

  /** The history of a command with no phase is empty. */
  ghost predicate Untouched(h: Handler, id: string)
  {
    h.launched[id] == 0 && h.submitted[id] == 0
  }

  /** No command comes from nowhere. */
  ghost predicate Known(h: Handler, initial: M.Cache, id: string)
  {
    && (id in h.cache.commands ==> id in initial.commands || id in h.phases)
    && (id !in h.phases ==> Untouched(h, id))
  }

  ghost predicate Inv(h: Handler, initial: M.Cache)
  {
    && Accounting(h)
    && (forall id :: id in h.phases ==> Tracked(h, id))
    && (forall id :: id in initial.commands ==> Inherited(h, initial, id))
    && BacklogOk(h, initial)
    && (forall id :: Known(h, initial, id))
    && (h.cancelled <==> h.stopCall != NotCalled)
  }

  lemma InitialInv(configured: int, json: string -> bool, cache: M.Cache, resumed: seq<string>)
    requires M.IsPendingList(cache, resumed)
    ensures Inv(NewHandler(configured, json, cache, resumed), cache)
  {
    ListsSet(resumed, M.PendingIDs(cache));
  }

  /** The command an action is about, if the action moves one. */
  function Subject(h: Handler, a: Action): Option<string>
    requires Enabled(h, a)
  {
    match a
    case HandleCommand(id, _, encoded, _) => if encoded.Some? then Some(id) else None
    case Launch(id) => Some(id)
    case ResumeNext => if h.json(h.cache.commands[h.backlog[0]].payload) then Some(h.backlog[0]) else None
    case Acquire(id) => Some(id)
    case Abort(id) => Some(id)
    case Submit(id) => Some(id)
    case Mark(id, _) => Some(id)
    case Release(id) => Some(id)
    case Finish(id) => Some(id)
    case Stop => None
    case StopReturns => None
    case StopTimesOut => None
  }

  lemma StepMovesSubject(h: Handler, a: Action)
    requires Enabled(h, a)
    ensures Subject(h, a).None? ==> Step(h, a).phases == h.phases
    ensures Subject(h, a).Some? ==>
              var id := Subject(h, a).value;
              id in Step(h, a).phases && Step(h, a).phases == h.phases[id := Step(h, a).phases[id]]
  {
  }

  lemma StepAccounting(h: Handler, a: Action)
    requires Accounting(h) && Enabled(h, a)
    requires a.ResumeNext? ==> h.backlog[0] !in h.phases
    requires a.HandleCommand? ==> a.id !in h.phases
    ensures Accounting(Step(h, a))
  {
    StepMovesSubject(h, a);
    if Subject(h, a).Some? {
      var id := Subject(h, a).value;
      UpdateCount(h.phases, id, Step(h, a).phases[id], HoldsSlot);
      UpdateCount(h.phases, id, Step(h, a).phases[id], IsLive);
    }
  }

  /** A step leaves every command alone but its subject. */
  lemma OthersUnchanged(h: Handler, a: Action, id: string)
    requires Enabled(h, a) && Subject(h, a) != Some(id)
    ensures var h' := Step(h, a);
            && (id in h'.phases <==> id in h.phases) && (id in h.phases ==> h'.phases[id] == h.phases[id])
            && (id in h'.cache.commands <==> id in h.cache.commands)
            && (id in h.cache.commands ==> h'.cache.commands[id] == h.cache.commands[id])
            && h'.launched[id] == h.launched[id] && h'.submitted[id] == h.submitted[id]
  {
  }

  lemma SubjectTracked(h: Handler, a: Action)
    requires Enabled(h, a) && Subject(h, a).Some?
    requires var id := Subject(h, a).value; if id in h.phases then Tracked(h, id) else Untouched(h, id)
    requires a.ResumeNext? ==>
               h.backlog[0] !in h.phases && h.cache.commands[h.backlog[0]].status == M.STATUS_PENDING
    requires a.HandleCommand? ==> a.id !in h.phases
    ensures Tracked(Step(h, a), Subject(h, a).value)
  {
    match a {
      case HandleCommand(_, _, _, _) =>
      case ResumeNext =>
      case Mark(_, _) =>
      case _ =>
    }
  }

  lemma StepTracked(h: Handler, a: Action, initial: M.Cache, id: string)
    requires Inv(h, initial) && Enabled(h, a)
    requires id in Step(h, a).phases
    ensures Tracked(Step(h, a), id)
  {
    assert Known(h, initial, id);
    assert id in h.phases ==> Tracked(h, id);
    if Subject(h, a) != Some(id) {
      OthersUnchanged(h, a, id);
    } else {
      assert a.ResumeNext? ==> Inherited(h, initial, h.backlog[0]);
      SubjectTracked(h, a);
    }
  }

  lemma StepInherited(h: Handler, a: Action, initial: M.Cache, id: string)
    requires BacklogOk(h, initial) && Enabled(h, a)
    requires id in initial.commands && id in h.cache.commands && Inherited(h, initial, id)
    ensures Inherited(Step(h, a), initial, id)
  {
    if Subject(h, a) != Some(id) {
      OthersUnchanged(h, a, id);
      if a.ResumeNext? {
        assert id in h.backlog ==> id == h.backlog[0] || id in h.backlog[1..];
      }
    } else {
      StepMovesSubject(h, a);
      assert a.ResumeNext? ==> h.backlog[0] in h.backlog;
    }
  }

  lemma StepBacklog(h: Handler, a: Action, initial: M.Cache)
    requires BacklogOk(h, initial) && Enabled(h, a)
    requires a.HandleCommand? ==> a.id !in initial.commands
    requires Subject(h, a).Some? && !a.HandleCommand? && !a.ResumeNext? ==> Subject(h, a).value in h.phases
    ensures BacklogOk(Step(h, a), initial)
  {
    StepMovesSubject(h, a);
  }

  lemma StepKnown(h: Handler, a: Action, initial: M.Cache, id: string)
    requires Known(h, initial, id) && Enabled(h, a)
    ensures Known(Step(h, a), initial, id)
  {
    StepMovesSubject(h, a);
    if Subject(h, a) != Some(id) {
      OthersUnchanged(h, a, id);
    }
  }

  lemma StepInv(h: Handler, a: Action, initial: M.Cache)
    requires Inv(h, initial) && Enabled(h, a)
    ensures Inv(Step(h, a), initial)
  {
    var h' := Step(h, a);
    StepAccounting(h, a);
    StepBacklog(h, a, initial);
    forall id | id in h'.phases ensures Tracked(h', id) {
      StepTracked(h, a, initial, id);
    }
    forall id | id in initial.commands ensures Inherited(h', initial, id) {
      assert Inherited(h, initial, id);
      assert id in h.phases ==> Tracked(h, id);
      StepInherited(h, a, initial, id);
    }
    forall id ensures Known(h', initial, id) {
      assert Known(h, initial, id);
      StepKnown(h, a, initial, id);
    }
  }
}

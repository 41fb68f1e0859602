/** The heartbeat service: rounds of attempts over the retrying client, and the failure count
    that decides the status each heartbeat reports. */
module Heartbeat {
  import opened Backoff
  import opened RequestRetry

  const STATUS_ONLINE := "online"
  const STATUS_DEGRADED := "degraded"

  datatype Round = Succeeded | RetriesExhausted | Interrupted

  /** The reference: the index of the last successful round, or -1. */
  function LastSuccess(rounds: seq<Round>): int
    ensures -1 <= LastSuccess(rounds) < |rounds|
  {
    if rounds == [] then -1
    else if Last(rounds).Succeeded? then |rounds| - 1
    else LastSuccess(rounds[..|rounds| - 1])
  }

  function CountExhausted(rounds: seq<Round>): nat
  {
    if rounds == [] then 0
    else CountExhausted(rounds[..|rounds| - 1]) + if Last(rounds).RetriesExhausted? then 1 else 0
  }

  /** The reference: exhausted rounds since the last successful one. */
  function ExhaustedSinceSuccess(rounds: seq<Round>): nat
  {
    CountExhausted(rounds[LastSuccess(rounds) + 1..])
  }

  /** The failure counter after a round. */
  function FailuresAfter(failures: nat, round: Round): nat
  {
    match round
    case Succeeded => 0
    case RetriesExhausted => failures + 1
    case Interrupted => failures
  }

  lemma NextRound(rounds: seq<Round>, r: Round)
    ensures ExhaustedSinceSuccess(rounds + [r]) == FailuresAfter(ExhaustedSinceSuccess(rounds), r)
  {
    assert (rounds + [r])[..|rounds|] == rounds;
    if !r.Succeeded? {
      var since := rounds[LastSuccess(rounds) + 1..];
      assert (rounds + [r])[LastSuccess(rounds) + 1..] == since + [r];
      assert (since + [r])[..|since|] == since;
    }
  }

  /** The failure counter after a history of rounds. */
  function Failures(rounds: seq<Round>): nat
  {
    if rounds == [] then 0 else FailuresAfter(Failures(rounds[..|rounds| - 1]), Last(rounds))
  }

  lemma FailuresSnoc(rounds: seq<Round>, r: Round)
    ensures Failures(rounds + [r]) == FailuresAfter(Failures(rounds), r)
  {
    assert (rounds + [r])[..|rounds|] == rounds;
  }

  /** After any sequence of rounds the counter is the number of exhausted rounds since the last
      successful one. */
  lemma {:induction false} CounterIsExhaustedSinceSuccess(rounds: seq<Round>)
    ensures Failures(rounds) == ExhaustedSinceSuccess(rounds)
  {
    if rounds != [] {
      var init := rounds[..|rounds| - 1];
      CounterIsExhaustedSinceSuccess(init);
      NextRound(init, Last(rounds));
      assert rounds == init + [Last(rounds)];
    }
  }

  lemma {:induction false} CountIsZeroWhenNone(rounds: seq<Round>)
    ensures CountExhausted(rounds) == 0 <==> RetriesExhausted !in rounds
  {
    if rounds != [] {
      CountIsZeroWhenNone(rounds[..|rounds| - 1]);
      assert rounds == rounds[..|rounds| - 1] + [Last(rounds)];
    }
  }

  lemma {:induction false} LastSuccessIsLast(rounds: seq<Round>)
    ensures var k := LastSuccess(rounds);
            && (0 <= k ==> rounds[k].Succeeded?)
            && forall i :: k < i < |rounds| ==> !rounds[i].Succeeded?
  {
    if rounds != [] && !Last(rounds).Succeeded? {
      LastSuccessIsLast(rounds[..|rounds| - 1]);
    }
  }

  /** No round has been exhausted since the last successful one. */
  ghost predicate Healthy(rounds: seq<Round>)
  {
    forall i :: 0 <= i < |rounds| && rounds[i].RetriesExhausted? ==>
      exists j :: i < j < |rounds| && rounds[j].Succeeded?
  }

  lemma ExhaustedSince(rounds: seq<Round>, i: nat)
    requires LastSuccess(rounds) < i < |rounds| && rounds[i].RetriesExhausted?
    ensures !Healthy(rounds)
  {
    LastSuccessIsLast(rounds);
    assert forall j :: i < j < |rounds| ==> !rounds[j].Succeeded?;
  }

  lemma NoneExhaustedSince(rounds: seq<Round>)
    requires forall i :: LastSuccess(rounds) < i < |rounds| ==> !rounds[i].RetriesExhausted?
    ensures Healthy(rounds)
  {
    LastSuccessIsLast(rounds);
    forall i | 0 <= i < |rounds| && rounds[i].RetriesExhausted?
      ensures exists j :: i < j < |rounds| && rounds[j].Succeeded?
    {
      assert rounds[LastSuccess(rounds)].Succeeded?;
    }
  }

  lemma HealthyExactlyWhenCountIsZero(rounds: seq<Round>)
    ensures Healthy(rounds) <==> ExhaustedSinceSuccess(rounds) == 0
  {
    var start := LastSuccess(rounds) + 1;
    var since := rounds[start..];
    CountIsZeroWhenNone(since);
    if RetriesExhausted in since {
      var i :| 0 <= i < |since| && since[i] == RetriesExhausted;
      ExhaustedSince(rounds, start + i);
    } else {
      forall i | start <= i < |rounds| ensures !rounds[i].RetriesExhausted? {
        assert rounds[i] == since[i - start];
        assert since[i - start] in since;
      }
      NoneExhaustedSince(rounds);
    }
  }

  function StatusFor(failures: nat): string
  {
    if failures == 0 then STATUS_ONLINE
    else if failures < 5 then STATUS_DEGRADED
    else STATUS_DEGRADED
  }

  /** What ends the wait of the heartbeat loop. */
  datatype LoopEvent = Tick | StopSignal | ContextCancelled

  /** The rounds one heartbeat attempt's outcomes make up. */
  ghost predicate RoundTrace(maxRetries: int, attempts: seq<bool>, round: Round)
  {
    && |attempts| <= (if maxRetries < 0 then 0 else maxRetries + 1)
    && (forall i :: 0 <= i < |attempts| - 1 ==> !attempts[i])
    && (round.Succeeded? <==> attempts != [] && Last(attempts))
    && (round.RetriesExhausted? ==> |attempts| == (if maxRetries < 0 then 0 else maxRetries + 1))
    && (round.Interrupted? ==> 0 < |attempts| <= maxRetries)
  }

  /** The most sends `attempts` heartbeats can make when each makes at most `perAttempt`. */
  function Budget(attempts: nat, perAttempt: nat): nat
  {
    if attempts == 0 then 0 else Budget(attempts - 1, perAttempt) + perAttempt
  }

  lemma {:induction false} BudgetIsProduct(attempts: nat, perAttempt: nat)
    ensures Budget(attempts, perAttempt) == attempts * perAttempt
  {
    if attempts != 0 {
      BudgetIsProduct(attempts - 1, perAttempt);
      assert attempts * perAttempt == (attempts - 1) * perAttempt + perAttempt;
    }
  }

  lemma WithinBudget(attempts: nat, limit: nat, perAttempt: nat)
    requires attempts <= limit
    ensures attempts * perAttempt <= limit * perAttempt
  {
    assert (limit - attempts) * perAttempt >= 0;
  }

  /** The most sends one heartbeat can make. */
  function SendsPerAttempt(client: RetryConfig): nat
  {
    if client.maxRetries < 0 then 0 else client.maxRetries + 1
  }

  /** A heartbeat built: its status, and the number of rounds before it. */
  datatype Report = Report(status: string, before: nat)

  /** It said "online" exactly when all was well with the rounds before it. */
  ghost predicate SaidRightly(r: Report, rounds: seq<Round>)
  {
    r.before <= |rounds| && (r.status == STATUS_ONLINE <==> Healthy(rounds[..r.before]))
  }

  ghost predicate ReportedRightly(reported: seq<Report>, rounds: seq<Round>)
  {
    forall i :: 0 <= i < |reported| ==> SaidRightly(reported[i], rounds)
  }

  lemma StillReportedRightly(reported: seq<Report>, rounds: seq<Round>, round: Round)
    requires ReportedRightly(reported, rounds)
    ensures ReportedRightly(reported, rounds + [round])
  {
    forall i | 0 <= i < |reported| ensures SaidRightly(reported[i], rounds + [round]) {
      assert SaidRightly(reported[i], rounds);
      assert (rounds + [round])[..reported[i].before] == rounds[..reported[i].before];
    }
  }

  class HeartbeatService {
    const maxRetries: int
    const backoff: Params
    const client: RetryConfig
    const transport: Transport
    var clientID: string
    var consecutiveFailures: nat

    /** History: the rounds so far and the heartbeats built. */
    ghost var rounds: seq<Round>
    ghost var reported: seq<Report>

    ghost predicate Valid()
      reads this
    {
      && Positive(backoff) && Positive(client.backoff)
      && consecutiveFailures == Failures(rounds)
      && ReportedRightly(reported, rounds)
    }

    constructor (retryAttempts: int, client: RetryConfig, transport: Transport, clientID: string)
      requires Positive(client.backoff)
      ensures rounds == [] && reported == []
      ensures Valid()
      ensures this.maxRetries == retryAttempts && this.client == client && this.transport == transport
      ensures this.clientID == clientID && this.backoff == Params(1_000_000_000, 300_000_000_000, 2.0)
    {
      this.maxRetries := retryAttempts;
      this.backoff := HEARTBEAT_BACKOFF;
      this.client := client;
      this.transport := transport;
      this.clientID := clientID;
      consecutiveFailures := 0;
      rounds := [];
      reported := [];
    }

    function DetermineClientStatus(): (status: string)
      requires Valid()
      reads this
      ensures status == if Healthy(rounds) then "online" else "degraded"
    {
      CounterIsExhaustedSinceSuccess(rounds);
      HealthyExactlyWhenCountIsZero(rounds);
      StatusFor(consecutiveFailures)
    }

    /** One heartbeat; without a client ID it fails before anything is sent. */
    method SendHeartbeat() returns (ok: bool)
      requires Valid()
      modifies `reported, transport
      ensures Valid()
      ensures old(transport.sends) <= transport.sends
      ensures |transport.sends| - |old(transport.sends)| <= SendsPerAttempt(client)
      ensures ok <==> transport.sends != old(transport.sends) && Last(transport.sends).Success?
      ensures clientID == "" || client.maxRetries < 0 <==> transport.sends == old(transport.sends)
      ensures reported == old(reported) + [Report(StatusFor(consecutiveFailures), |rounds|)]
    {
      var status := DetermineClientStatus();
      assert rounds[..|rounds|] == rounds;
      reported := reported + [Report(status, |rounds|)];
      if clientID == "" {
        return false;
      }
      var outcome, waits := DoRequest(client, transport);
      return outcome.Nil?;
    }

    /** One round. `attempts` is the success of each heartbeat in it, `waits` the computed
        waits between them. */
    method SendHeartbeatWithRetry() returns (ghost attempts: seq<bool>, ghost waits: seq<int>)
      requires Valid()
      modifies this`consecutiveFailures, this`rounds, this`reported, transport
      ensures Valid()
      ensures |rounds| == |old(rounds)| + 1 && rounds[..|old(rounds)|] == old(rounds)
      ensures RoundTrace(maxRetries, attempts, Last(rounds))
      ensures AreWaits(backoff, waits)
      ensures |waits| == (if attempts == [] then 0 else if Last(rounds).Interrupted? then |attempts| else |attempts| - 1)
      ensures old(transport.sends) <= transport.sends
      ensures |transport.sends| - |old(transport.sends)|
                <= Budget(|attempts|, SendsPerAttempt(client))
      ensures clientID == "" ==> transport.sends == old(transport.sends)
      ensures clientID != "" && 0 <= client.maxRetries ==>
                |attempts| <= |transport.sends| - |old(transport.sends)|
    {
      attempts := [];
      waits := [];
      var attempt := 0;
      while attempt <= maxRetries
        invariant Valid() && rounds == old(rounds) && consecutiveFailures == old(consecutiveFailures)
        invariant 0 <= attempt <= (if maxRetries < 0 then 0 else maxRetries + 1)
        invariant AreWaits(backoff, waits) && (attempt == 0 ==> waits == []) && (0 < attempt ==> |waits| == attempt - 1)
        invariant |attempts| == attempt && forall i :: 0 <= i < attempt ==> !attempts[i]
        invariant old(transport.sends) <= transport.sends
        invariant |transport.sends| - |old(transport.sends)| <= Budget(|attempts|, SendsPerAttempt(client))
        invariant clientID == "" ==> transport.sends == old(transport.sends)
        invariant clientID != "" && 0 <= client.maxRetries ==>
            |attempts| <= |transport.sends| - |old(transport.sends)|
        decreases maxRetries - attempt
      {
        if 0 < attempt {
          var nanos: nat := *;
          NextWait(backoff, waits, nanos);
          waits := waits + [Wait(backoff, attempt, nanos)];
          var stopped: bool := *;
          if stopped {
            EndRound(Interrupted);
            return;
          }
        }
        var ok := SendHeartbeat();
        attempts := attempts + [ok];
        if ok {
          consecutiveFailures := 0;
          EndRound(Succeeded);
          return;
        }
        attempt := attempt + 1;
      }
      consecutiveFailures := consecutiveFailures + 1;
      EndRound(RetriesExhausted);
    }

    /** Record the round's result in the history. */
    ghost method EndRound(r: Round)
      requires Positive(backoff) && Positive(client.backoff)
      requires consecutiveFailures == FailuresAfter(Failures(rounds), r)
      requires ReportedRightly(reported, rounds)
      modifies `rounds
      ensures Valid() && rounds == old(rounds) + [r]
    {
      FailuresSnoc(rounds, r);
      StillReportedRightly(reported, rounds, r);
      rounds := rounds + [r];
    }

    /** The loop: a round at once and one per tick, until a stop signal or a cancelled context. */
    method HeartbeatLoop(events: seq<LoopEvent>)
      requires Valid()
      modifies this`consecutiveFailures, this`rounds, this`reported, transport
      ensures Valid()
      ensures |rounds| == |old(rounds)| + 1 + TicksBeforeStop(events)
    {
      var _, _ := SendHeartbeatWithRetry();
      var i := 0;
      while i < |events|
        invariant 0 <= i <= |events|
        invariant Valid()
        invariant |rounds| + TicksBeforeStop(events[i..]) == |old(rounds)| + 1 + TicksBeforeStop(events)
      {
        if !events[i].Tick? {
          return;
        }
        var _, _ := SendHeartbeatWithRetry();
        assert events[i..][1..] == events[i + 1..];
        i := i + 1;
      }
    }
  }

  function TicksBeforeStop(events: seq<LoopEvent>): (k: nat)
    ensures k <= |events| && forall i :: 0 <= i < k ==> events[i].Tick?
    ensures k < |events| ==> events[k].StopSignal? || events[k].ContextCancelled?
  {
    if events == [] || !events[0].Tick? then 0 else 1 + TicksBeforeStop(events[1..])
  }

  /** One round makes at most (RetryAttempts + 1) * (MaxRetries + 1) sends. */
  lemma RoundSendBound(maxRetries: nat, client: RetryConfig, attempts: seq<bool>, round: Round, sends: nat)
    requires 0 <= client.maxRetries
    requires RoundTrace(maxRetries, attempts, round)
    requires sends <= Budget(|attempts|, SendsPerAttempt(client))
    ensures sends <= (maxRetries + 1) * (client.maxRetries + 1)
  {
    BudgetIsProduct(|attempts|, client.maxRetries + 1);
    WithinBudget(|attempts|, maxRetries + 1, client.maxRetries + 1);
  }
}

/** 64-bit counters. */
module Counters {
  const TWO_TO_64: int := 0x1_0000_0000_0000_0000

  type uint64 = x: int | 0 <= x < TWO_TO_64

  /** Subtraction as the machine does it: modulo 2^64. */
  function WrappingSub(a: uint64, b: uint64): (d: uint64)
    ensures b <= a ==> d == a - b
    ensures a < b ==> d == a - b + TWO_TO_64
  {
    if b <= a then a - b else a - b + TWO_TO_64
  }

  /** The pre-drop values at each place where the next observation is smaller. */
  function Drops(values: seq<uint64>): int
  {
    if |values| < 2 then 0
    else
      var previous, last := values[|values| - 2], values[|values| - 1];
      Drops(values[..|values| - 1]) + if last < previous then previous else 0
  }
}

/** Network rates: deltas of cumulative counters, per interface. */
module NetworkRates {
  import opened Wrappers
  import opened Counters

  datatype Stat = Stat(
    name: string,
    bytesRecv: uint64, bytesSent: uint64,
    packetsRecv: uint64, packetsSent: uint64,
    errin: uint64, errout: uint64,
    dropin: uint64, dropout: uint64)

  datatype Rates = Rates(
    name: string,
    bytesRecvDelta: uint64, bytesSentDelta: uint64,
    packetsRecvDelta: uint64, packetsSentDelta: uint64,
    errorsInDelta: uint64, errorsOutDelta: uint64,
    dropsInDelta: uint64, dropsOutDelta: uint64)

  datatype Counter =
    | BytesRecv | BytesSent | PacketsRecv | PacketsSent | ErrorsIn | ErrorsOut | DropsIn | DropsOut

  function Read(s: Stat, c: Counter): uint64
  {
    match c
    case BytesRecv => s.bytesRecv
    case BytesSent => s.bytesSent
    case PacketsRecv => s.packetsRecv
    case PacketsSent => s.packetsSent
    case ErrorsIn => s.errin
    case ErrorsOut => s.errout
    case DropsIn => s.dropin
    case DropsOut => s.dropout
  }

  function Delta(r: Rates, c: Counter): uint64
  {
    match c
    case BytesRecv => r.bytesRecvDelta
    case BytesSent => r.bytesSentDelta
    case PacketsRecv => r.packetsRecvDelta
    case PacketsSent => r.packetsSentDelta
    case ErrorsIn => r.errorsInDelta
    case ErrorsOut => r.errorsOutDelta
    case DropsIn => r.dropsInDelta
    case DropsOut => r.dropsOutDelta
  }

  /** On a decrease the whole current value counts as the delta. */
  function SafeDelta(current: uint64, last: uint64): uint64
  {
    if last <= current then current - last else current
  }

  function RatesBetween(current: Stat, last: Stat): Rates
  {
    Rates(current.name,
          SafeDelta(current.bytesRecv, last.bytesRecv), SafeDelta(current.bytesSent, last.bytesSent),
          SafeDelta(current.packetsRecv, last.packetsRecv), SafeDelta(current.packetsSent, last.packetsSent),
          SafeDelta(current.errin, last.errin), SafeDelta(current.errout, last.errout),
          SafeDelta(current.dropin, last.dropin), SafeDelta(current.dropout, last.dropout))
  }

  /** The remembered statistics after a sample; of repeated names the later entry wins. */
  function Remember(last: map<string, Stat>, sample: seq<Stat>): map<string, Stat>
  {
    if sample == [] then last
    else
      var stat := sample[|sample| - 1];
      Remember(last, sample[..|sample| - 1])[stat.name := stat]
  }

  /** The rates of the interfaces seen before. */
  function RatesOf(last: map<string, Stat>, sample: seq<Stat>): map<string, Rates>
  {
    if sample == [] then map[]
    else
      var rest := RatesOf(last, sample[..|sample| - 1]);
      var current := sample[|sample| - 1];
      if current.name in last then rest[current.name := RatesBetween(current, last[current.name])] else rest
  }

  /** What one successful update reports: nothing while no interface has been seen. */
  function Report(last: map<string, Stat>, sample: seq<Stat>): Option<map<string, Rates>>
  {
    if |last| == 0 then None else Some(RatesOf(last, sample))
  }

  class NetworkRateMonitor {
    var lastStats: map<string, Stat>

    constructor ()
      ensures lastStats == map[]
    {
      lastStats := map[];
    }

    method Update(reading: Result<seq<Stat>, string>) returns (r: Result<Option<map<string, Rates>>, string>)
      modifies this
      ensures reading.Err? ==> r == Err("failed to get network stats: " + reading.error) && lastStats == old(lastStats)
      ensures reading.Ok? ==>
                && r == Ok(Report(old(lastStats), reading.value))
                && lastStats == Remember(old(lastStats), reading.value)
    {
      if reading.Err? {
        return Err("failed to get network stats: " + reading.error);
      }
      var currentStats := reading.value;
      if |lastStats| == 0 {
        RememberAll(currentStats);
        return Ok(None);
      }
      var rates: map<string, Rates> := map[];
      for i := 0 to |currentStats|
        invariant rates == RatesOf(lastStats, currentStats[..i])
      {
        var current := currentStats[i];
        assert currentStats[..i + 1][..i] == currentStats[..i];
        if current.name in lastStats {
          rates := rates[current.name := RatesBetween(current, lastStats[current.name])];
        }
      }
      assert currentStats[..|currentStats|] == currentStats;
      RememberAll(currentStats);
      return Ok(Some(rates));
    }

    method RememberAll(currentStats: seq<Stat>)
      modifies this
      ensures lastStats == Remember(old(lastStats), currentStats)
    {
      for i := 0 to |currentStats|
        invariant lastStats == Remember(old(lastStats), currentStats[..i])
      {
        assert currentStats[..i + 1][..i] == currentStats[..i];
        lastStats := lastStats[currentStats[i].name := currentStats[i]];
      }
      assert currentStats[..|currentStats|] == currentStats;
    }
  }

  // ---------- Whole runs ----------

  ghost predicate DistinctNames(sample: seq<Stat>)
  {
    forall i, j :: 0 <= i < j < |sample| ==> sample[i].name != sample[j].name
  }

  /** What the monitor remembers after a run of samples. */
  function StateAfter(samples: seq<seq<Stat>>): map<string, Stat>
  {
    if samples == [] then map[]
    else Remember(StateAfter(samples[..|samples| - 1]), samples[|samples| - 1])
  }

  /** The sum of the deltas reported for one counter of one interface over a run. */
  function Reported(samples: seq<seq<Stat>>, name: string, c: Counter): int
  {
    if samples == [] then 0
    else
      var before := samples[..|samples| - 1];
      Reported(before, name, c) + ReportedIn(StateAfter(before), samples[|samples| - 1], name, c)
  }

  function ReportedIn(last: map<string, Stat>, sample: seq<Stat>, name: string, c: Counter): int
  {
    var report := Report(last, sample);
    if report.Some? && name in report.value then Delta(report.value[name], c) else 0
  }

  /** The values of the counter in one sample: none or one when names are distinct. */
  function ValuesIn(sample: seq<Stat>, name: string, c: Counter): seq<uint64>
  {
    if sample == [] then []
    else
      var stat := sample[|sample| - 1];
      ValuesIn(sample[..|sample| - 1], name, c) + if stat.name == name then [Read(stat, c)] else []
  }

  /** The values of the counter observed over a run, in order; samples may miss the interface. */
  function Observed(samples: seq<seq<Stat>>, name: string, c: Counter): seq<uint64>
  {
    if samples == [] then []
    else Observed(samples[..|samples| - 1], name, c) + ValuesIn(samples[|samples| - 1], name, c)
  }

  lemma {:induction false} SampleEffect(last: map<string, Stat>, sample: seq<Stat>, name: string, c: Counter)
    requires DistinctNames(sample)
    ensures var values := ValuesIn(sample, name, c);
            && |values| <= 1
            && (values == [] ==>
                  && (forall stat :: stat in sample ==> stat.name != name)
                  && name !in RatesOf(last, sample)
                  && (name in Remember(last, sample) <==> name in last)
                  && (name in last ==> Remember(last, sample)[name] == last[name]))
            && (name in RatesOf(last, sample) ==> RatesOf(last, sample)[name].name == name)
            && (values != [] ==>
                  && name in Remember(last, sample) && Read(Remember(last, sample)[name], c) == values[0]
                  && (name in RatesOf(last, sample) <==> name in last)
                  && (name in last ==>
                        Delta(RatesOf(last, sample)[name], c) == SafeDelta(values[0], Read(last[name], c))))
  {
    if sample != [] {
      var init, stat := sample[..|sample| - 1], sample[|sample| - 1];
      SampleEffect(last, init, name, c);
      if stat.name == name && ValuesIn(init, name, c) != [] {
        NamedSomewhere(init, name, c);
      }
    }
  }

  lemma {:induction false} NamedSomewhere(sample: seq<Stat>, name: string, c: Counter)
    requires ValuesIn(sample, name, c) != []
    ensures exists i :: 0 <= i < |sample| && sample[i].name == name
  {
    if sample[|sample| - 1].name != name {
      NamedSomewhere(sample[..|sample| - 1], name, c);
      var i :| 0 <= i < |sample| - 1 && sample[..|sample| - 1][i].name == name;
      assert sample[i].name == name;
    }
  }

  /** The monitor remembers exactly the interfaces observed, each with its last value. */
  lemma {:induction false} StateIsLastObserved(samples: seq<seq<Stat>>, name: string, c: Counter)
    requires forall sample :: sample in samples ==> DistinctNames(sample)
    ensures var values, state := Observed(samples, name, c), StateAfter(samples);
            && (name in state <==> values != [])
            && (values != [] ==> Read(state[name], c) == values[|values| - 1])
  {
    if samples != [] {
      var before, sample := samples[..|samples| - 1], samples[|samples| - 1];
      assert sample in samples && forall s :: s in before ==> s in samples;
      StateIsLastObserved(before, name, c);
      SampleEffect(StateAfter(before), sample, name, c);
    }
  }

  /** A delta is reported when the interface is observed and has been observed before. */
  lemma NextReport(before: seq<seq<Stat>>, sample: seq<Stat>, name: string, c: Counter)
    requires DistinctNames(sample) && forall s :: s in before ==> DistinctNames(s)
    ensures var earlier, now := Observed(before, name, c), ValuesIn(sample, name, c);
            && |now| <= 1
            && ReportedIn(StateAfter(before), sample, name, c)
               == (if now == [] || earlier == [] then 0
                   else if earlier[|earlier| - 1] <= now[0] then now[0] - earlier[|earlier| - 1]
                   else now[0])
  {
    StateIsLastObserved(before, name, c);
    SampleEffect(StateAfter(before), sample, name, c);
    if name in StateAfter(before) {
      assert |StateAfter(before)| != 0;
    }
  }

  lemma DropsSnoc(values: seq<uint64>, v: uint64)
    requires values != []
    ensures Drops(values + [v])
         == Drops(values) + if v < values[|values| - 1] then values[|values| - 1] else 0
  {
    assert (values + [v])[..|values|] == values;
  }

  /** Last observed value minus first, plus the pre-drop values; zero if never observed. */
  function Telescoped(values: seq<uint64>): int
  {
    if values == [] then 0 else values[|values| - 1] - values[0] + Drops(values)
  }

  lemma TelescopeStep(earlier: seq<uint64>, now: seq<uint64>)
    requires |now| <= 1
    ensures Telescoped(earlier + now)
         == Telescoped(earlier) + if now == [] || earlier == [] then 0 else SafeDelta(now[0], earlier[|earlier| - 1])
  {
    if now == [] {
      assert earlier + now == earlier;
    } else if earlier == [] {
      assert earlier + now == now;
    } else {
      assert now == [now[0]];
      DropsSnoc(earlier, now[0]);
    }
  }

  /** Over any run with distinct names per sample, the deltas reported for a counter sum to its
      last observed value minus its first, plus the pre-drop value at each observed decrease;
      nothing is reported for an interface never observed. */
  lemma {:induction false} NetworkDeltasTelescope(samples: seq<seq<Stat>>, name: string, c: Counter)
    requires forall sample :: sample in samples ==> DistinctNames(sample)
    ensures Reported(samples, name, c) == Telescoped(Observed(samples, name, c))
  {
    if samples != [] {
      var before, sample := samples[..|samples| - 1], samples[|samples| - 1];
      assert sample in samples && forall s :: s in before ==> s in samples;
      NetworkDeltasTelescope(before, name, c);
      NextReport(before, sample, name, c);
      TelescopeStep(Observed(before, name, c), ValuesIn(sample, name, c));
    }
  }
}

/** Disk rates: deltas modulo 2^64, per disk, between consecutive samples. */
module DiskRates {
  import opened Wrappers
  import opened Counters

  datatype Stats = Stats(name: string, readCount: uint64, writeCount: uint64, readBytes: uint64, writeBytes: uint64)

  datatype Rates = Rates(name: string, readOps: uint64, writeOps: uint64, readBytes: uint64, writeBytes: uint64)

  datatype Counter = ReadOps | WriteOps | ReadBytes | WriteBytes

  function Read(s: Stats, c: Counter): uint64
  {
    match c
    case ReadOps => s.readCount
    case WriteOps => s.writeCount
    case ReadBytes => s.readBytes
    case WriteBytes => s.writeBytes
  }

  function Delta(r: Rates, c: Counter): uint64
  {
    match c
    case ReadOps => r.readOps
    case WriteOps => r.writeOps
    case ReadBytes => r.readBytes
    case WriteBytes => r.writeBytes
  }

  function RatesBetween(name: string, current: Stats, last: Stats): Rates
  {
    Rates(name,
          WrappingSub(current.readCount, last.readCount),
          WrappingSub(current.writeCount, last.writeCount),
          WrappingSub(current.readBytes, last.readBytes),
          WrappingSub(current.writeBytes, last.writeBytes))
  }

  type Sample = map<string, Stats>

  /** What one successful update reports: the disks in this sample and in the previous one. */
  function Report(last: Sample, current: Sample): Option<map<string, Rates>>
  {
    if |last| == 0 then None
    else Some(map name | name in current && name in last :: RatesBetween(name, current[name], last[name]))
  }

  class DiskIOMonitor {
    var lastStats: Sample

    constructor ()
      ensures lastStats == map[]
    {
      lastStats := map[];
    }

    method Update(reading: Result<Sample, string>) returns (r: Result<Option<map<string, Rates>>, string>)
      modifies this
      ensures reading.Err? ==> r == Err(reading.error) && lastStats == old(lastStats)
      ensures reading.Ok? ==> r == Ok(Report(old(lastStats), reading.value)) && lastStats == reading.value
    {
      if reading.Err? {
        return Err(reading.error);
      }
      var currentStats := reading.value;
      if |lastStats| == 0 {
        lastStats := currentStats;
        return Ok(None);
      }
      var rates: map<string, Rates> := map[];
      var names := currentStats.Keys;
      while names != {}
        invariant names <= currentStats.Keys
        invariant rates.Keys == (currentStats.Keys - names) * lastStats.Keys
        invariant forall name :: name in rates ==>
            rates[name] == RatesBetween(name, currentStats[name], lastStats[name])
        decreases |names|
      {
        var name :| name in names;
        names := names - {name};
        if name in lastStats {
          rates := rates[name := RatesBetween(name, currentStats[name], lastStats[name])];
        }
      }
      assert rates == Report(lastStats, currentStats).value;
      lastStats := currentStats;
      return Ok(Some(rates));
    }
  }

  // ---------- Whole runs ----------

  /** What the monitor remembers before sample `k` of a run. */
  function Before(samples: seq<Sample>, k: nat): Sample
    requires k <= |samples|
  {
    if k == 0 then map[] else samples[k - 1]
  }

  /** The delta reported for one counter of a disk at sample `k`, if any. */
  function ReportedAt(samples: seq<Sample>, k: nat, name: string, c: Counter): Option<uint64>
    requires k < |samples|
  {
    var report := Report(Before(samples, k), samples[k]);
    if report.Some? && name in report.value then Some(Delta(report.value[name], c)) else None
  }

  /** The sum of the deltas reported after sample `i`, up to and including sample `j`. */
  function ReportedBetween(samples: seq<Sample>, i: nat, j: nat, name: string, c: Counter): int
    requires i <= j < |samples|
    decreases j
  {
    if i == j then 0
    else
      var delta := ReportedAt(samples, j, name, c);
      ReportedBetween(samples, i, j - 1, name, c) + if delta.Some? then delta.value else 0
  }

  /** A disk missing from the previous sample, or from the run so far, gets a fresh baseline;
      one present in both gets a delta, exact when its counter did not decrease. */
  lemma BaselineOrDelta(samples: seq<Sample>, k: nat, name: string, c: Counter)
    requires k < |samples|
    ensures ReportedAt(samples, k, name, c).Some? <==>
              0 < k && name in samples[k - 1] && name in samples[k]
    ensures 0 < k && name in samples[k - 1] && name in samples[k] &&
            Read(samples[k - 1][name], c) <= Read(samples[k][name], c) ==>
              ReportedAt(samples, k, name, c)
                == Some(Read(samples[k][name], c) - Read(samples[k - 1][name], c))
    ensures var report := Report(Before(samples, k), samples[k]);
            report.Some? && name in report.value ==> report.value[name].name == name
  {
    if 0 < k && name in samples[k - 1] {
      assert |samples[k - 1]| != 0;
    }
  }

  /** How often the counter decreased. */
  function Wraps(samples: seq<Sample>, i: nat, j: nat, name: string, c: Counter): nat
    requires i <= j < |samples|
    requires forall k :: i <= k <= j ==> name in samples[k]
    decreases j
  {
    if i == j then 0
    else Wraps(samples, i, j - 1, name, c)
         + if Read(samples[j][name], c) < Read(samples[j - 1][name], c) then 1 else 0
  }

  /** Over consecutive samples that all contain a disk, the deltas reported for a counter sum
      to its last value minus its first, plus 2^64 for every time it decreased. */
  lemma {:induction false} DiskDeltasTelescope(samples: seq<Sample>, i: nat, j: nat, name: string, c: Counter)
    requires i <= j < |samples|
    requires forall k :: i <= k <= j ==> name in samples[k]
    ensures ReportedBetween(samples, i, j, name, c)
         == Read(samples[j][name], c) - Read(samples[i][name], c) + TWO_TO_64 * Wraps(samples, i, j, name, c)
    decreases j
  {
    if i < j {
      DiskDeltasTelescope(samples, i, j - 1, name, c);
      BaselineOrDelta(samples, j, name, c);
    }
  }
}

/**
 PactStorage: the object that owns the record file, and the statistics it computes from it.
 */
module Storage {

  import opened Wrappers
  import opened RecordFile

  // ---------------------------------------------------------------------------------------------
  // Statistics
  // ---------------------------------------------------------------------------------------------

  datatype Tally = Tally(calls: nat, failures: nat) {
    function FailureRate(): real {
      if calls > 0 then failures as real / calls as real else 0.0
    }
  }

  datatype ProviderStats = ProviderStats(calls: nat, failureRate: real)

  datatype Stats = Stats(totalCalls: nat, failureRate: real, avgLatencyMs: int, byProvider: map<string, ProviderStats>)

  function CountFailures(records: seq<CallRecord>): (n: nat)
    ensures n <= |records|
  {
    if records == [] then 0
    else (if records[0].classification != Success then 1 else 0) + CountFailures(records[1..])
  }

  function SumLatency(records: seq<CallRecord>): int {
    if records == [] then 0 else records[0].latencyMs + SumLatency(records[1..])
  }

  ghost predicate IsMean(sum: int, n: nat, mean: int) {
    if n == 0 then mean == 0 else n * (2 * mean - 1) <= 2 * sum < n * (2 * mean + 1)
  }

  lemma DivBounds(x: int, d: nat)
    requires 0 < d
    ensures d * (x / d) <= x < d * (x / d) + d
  {
  }

  // Math.round of the mean: the nearest integer, halves towards positive infinity.
  function RoundedMean(sum: int, n: nat): (mean: int)
    ensures IsMean(sum, n, mean)
  {
    if n == 0 then 0
    else
      var twice, d := 2 * sum + n, 2 * n;
      DivBounds(twice, d);
      twice / d
  }

  function OfHost(records: seq<CallRecord>, hostname: string): seq<CallRecord> {
    if records == [] then []
    else (if records[0].hostname == hostname then [records[0]] else []) + OfHost(records[1..], hostname)
  }

  ghost predicate TallyAt(records: seq<CallRecord>, byProvider: map<string, Tally>, h: string) {
    && (h in byProvider <==> OfHost(records, h) != [])
    && (h in byProvider ==>
          byProvider[h] == Tally(|OfHost(records, h)|, CountFailures(OfHost(records, h))))
  }

  lemma {:induction false} SumLatencyAppend(records: seq<CallRecord>, r: CallRecord)
    ensures SumLatency([]) == 0 && SumLatency(records + [r]) == SumLatency(records) + r.latencyMs
  {
    if records == [] {
      assert SumLatency([r][1..]) == 0;
    } else {
      assert (records + [r])[1..] == records[1..] + [r];
      SumLatencyAppend(records[1..], r);
    }
  }

  // The exact tallies: a provider is listed iff it has a record.
  ghost predicate IsTally(records: seq<CallRecord>, byProvider: map<string, Tally>) {
    forall h: string :: TallyAt(records, byProvider, h)
  }

  // The total of a weight over the entries of a map.
  ghost function SumOver<V>(m: map<string, V>, w: V -> real): real {
    if m == map[] then 0.0 else var k :| k in m; w(m[k]) + SumOver(m - {k}, w)
  }

  lemma {:induction false} SumRemove<V>(m: map<string, V>, w: V -> real, h: string)
    requires h in m
    ensures SumOver(m, w) == w(m[h]) + SumOver(m - {h}, w)
    decreases |m|
  {
    var k :| k in m && SumOver(m, w) == w(m[k]) + SumOver(m - {k}, w);
    if h != k {
      assert |m - {k}| < |m| && |m - {h}| < |m| by {
        assert (m - {k}).Keys == m.Keys - {k} && (m - {h}).Keys == m.Keys - {h};
      }
      SumRemove(m - {k}, w, h);
      SumRemove(m - {h}, w, k);
      assert m - {k} - {h} == m - {h} - {k};
    }
  }

  lemma {:induction false} SumSame<V, W>(m: map<string, V>, w: V -> real, n: map<string, W>, x: W -> real)
    requires m.Keys == n.Keys && forall k :: k in m ==> w(m[k]) == x(n[k])
    ensures SumOver(m, w) == SumOver(n, x)
    decreases |m|
  {
    if m == map[] {
      assert n.Keys == {};
    } else {
      var k :| k in m;
      assert (m - {k}).Keys == m.Keys - {k} && (n - {k}).Keys == n.Keys - {k};
      SumRemove(m, w, k);
      SumRemove(n, x, k);
      SumSame(m - {k}, w, n - {k}, x);
    }
  }

  ghost function Calls(): Tally -> real {
    (t: Tally) => t.calls as real
  }

  ghost function Failures(): Tally -> real {
    (t: Tally) => t.failures as real
  }

  lemma OfHostHead(r: CallRecord, rest: seq<CallRecord>, h: string)
    ensures OfHost([r] + rest, h) == (if r.hostname == h then [r] else []) + OfHost(rest, h)
  {
    assert ([r] + rest)[1..] == rest;
  }

  lemma {:induction false} OfHostAppend(records: seq<CallRecord>, r: CallRecord, h: string)
    ensures OfHost(records + [r], h) == OfHost(records, h) + OfHost([r], h)
    ensures OfHost([r], h) == if r.hostname == h then [r] else []
  {
    OfHostHead(r, [], h);
    assert [r] + [] == [r];
    if records == [] {
      assert records + [r] == [r];
    } else {
      var first, rest := records[0], records[1..];
      assert records == [first] + rest && records + [r] == [first] + (rest + [r]);
      OfHostHead(first, rest, h);
      OfHostHead(first, rest + [r], h);
      OfHostAppend(rest, r, h);
    }
  }

  lemma {:induction false} CountFailuresAppend(records: seq<CallRecord>, r: CallRecord)
    ensures CountFailures(records + [r]) == CountFailures(records) + if r.classification != Success then 1 else 0
  {
    if records == [] {
      assert CountFailures([r][1..]) == 0;
    } else {
      assert (records + [r])[1..] == records[1..] + [r];
      CountFailuresAppend(records[1..], r);
    }
  }

  /** The records of a hostname: exactly those, in the order of the file. */
  lemma {:induction false} OfHostMeaning(records: seq<CallRecord>, h: string) returns (at: seq<nat>)
    ensures |at| == |OfHost(records, h)|
    ensures forall i, j :: 0 <= i < j < |at| ==> at[i] < at[j]
    ensures forall i :: 0 <= i < |at| ==> at[i] < |records| && OfHost(records, h)[i] == records[at[i]]
    ensures forall k: nat :: k in at <==> k < |records| && records[k].hostname == h
  {
    at := [];
    if records != [] {
      var n := |records| - 1;
      var front := records[..n];
      at := OfHostMeaning(front, h);
      OfHostAppend(front, records[n], h);
      assert records == front + [records[n]];
      if records[n].hostname == h {
        at := at + [n];
      }
    }
  }

  /** The failures are the records whose classification is not success. */
  lemma {:induction false} CountFailuresIsSize(records: seq<CallRecord>)
    ensures CountFailures(records) == |set i: nat | i < |records| && records[i].classification != Success|
  {
    var bad := set i: nat | i < |records| && records[i].classification != Success;
    if records == [] {
      assert bad == {};
    } else {
      var n, front := |records| - 1, records[..|records| - 1];
      CountFailuresIsSize(front);
      CountFailuresAppend(front, records[n]);
      assert records == front + [records[n]];
      var before := set i: nat | i < |front| && front[i].classification != Success;
      assert bad == before + if records[n].classification != Success then {n} else {};
    }
  }

  // The tally after one more record.
  function Bump(byProvider: map<string, Tally>, r: CallRecord): map<string, Tally> {
    var t := if r.hostname in byProvider then byProvider[r.hostname] else Tally(0, 0);
    byProvider[r.hostname := Tally(t.calls + 1, t.failures + if r.classification != Success then 1 else 0)]
  }

  lemma BumpTally(records: seq<CallRecord>, byProvider: map<string, Tally>, r: CallRecord)
    requires IsTally(records, byProvider)
    ensures IsTally(records + [r], Bump(byProvider, r))
  {
    var after := Bump(byProvider, r);
    forall h: string
      ensures TallyAt(records + [r], after, h)
    {
      assert TallyAt(records, byProvider, h);
      OfHostAppend(records, r, h);
      if r.hostname == h {
        CountFailuresAppend(OfHost(records, h), r);
      } else {
        assert OfHost(records + [r], h) == OfHost(records, h);
      }
    }
  }

  lemma BumpSum(byProvider: map<string, Tally>, r: CallRecord, w: Tally -> real)
    requires w(Tally(0, 0)) == 0.0
    ensures var h := r.hostname;
            var before := if h in byProvider then byProvider[h] else Tally(0, 0);
            SumOver(Bump(byProvider, r), w) == SumOver(byProvider, w) - w(before) + w(Bump(byProvider, r)[h])
  {
    var h := r.hostname;
    SumRemove(Bump(byProvider, r), w, h);
    assert Bump(byProvider, r) - {h} == byProvider - {h};
    if h in byProvider {
      SumRemove(byProvider, w, h);
    } else {
      assert byProvider - {h} == byProvider;
    }
  }

  lemma BumpSums(byProvider: map<string, Tally>, r: CallRecord)
    ensures SumOver(Bump(byProvider, r), Calls()) == SumOver(byProvider, Calls()) + 1.0
    ensures SumOver(Bump(byProvider, r), Failures())
         == SumOver(byProvider, Failures()) + if r.classification != Success then 1.0 else 0.0
  {
    BumpSum(byProvider, r, Calls());
    BumpSum(byProvider, r, Failures());
  }

  lemma CountFailuresHead(r: CallRecord, rest: seq<CallRecord>)
    ensures CountFailures([r] + rest) == (if r.classification != Success then 1 else 0) + CountFailures(rest)
  {
    assert ([r] + rest)[1..] == rest;
  }

  // Marking changes nothing that the statistics look at.
  lemma {:induction false} MarkKeepsStats(records: seq<CallRecord>, count: int, h: string)
    ensures var marked := MarkFirst(records, count);
            && CountFailures(marked) == CountFailures(records)
            && SumLatency(marked) == SumLatency(records)
            && |OfHost(marked, h)| == |OfHost(records, h)|
            && CountFailures(OfHost(marked, h)) == CountFailures(OfHost(records, h))
  {
    if records != [] {
      var rest := if !records[0].synced && 0 < count then count - 1 else count;
      MarkKeepsStats(records[1..], rest, h);
      var marked := MarkFirst(records, count);
      assert marked[1..] == MarkFirst(records[1..], rest);
      if records[0].hostname == h {
        CountFailuresHead(marked[0], OfHost(marked[1..], h));
        CountFailuresHead(records[0], OfHost(records[1..], h));
      } else {
        assert OfHost(marked, h) == OfHost(marked[1..], h);
        assert OfHost(records, h) == OfHost(records[1..], h);
      }
    }
  }

  // ---------------------------------------------------------------------------------------------
  // The report
  // ---------------------------------------------------------------------------------------------

  // A provider's rate times its calls is its failures.
  ghost predicate RateFits(p: ProviderStats, failures: nat) {
    p.failureRate * p.calls as real == failures as real
  }

  ghost predicate ReportAt(records: seq<CallRecord>, report: map<string, ProviderStats>, h: string) {
    && (h in report <==> OfHost(records, h) != [])
    && (h in report ==>
          && report[h].calls == |OfHost(records, h)|
          && RateFits(report[h], CountFailures(OfHost(records, h))))
  }

  // The exact report: a provider is listed iff it has a record, with its calls and its failure rate.
  ghost predicate IsReport(records: seq<CallRecord>, report: map<string, ProviderStats>) {
    forall h: string :: ReportAt(records, report, h)
  }

  function StatsOfTally(t: Tally): ProviderStats {
    ProviderStats(t.calls, t.FailureRate())
  }

  function Report(byProvider: map<string, Tally>): map<string, ProviderStats> {
    map h | h in byProvider :: StatsOfTally(byProvider[h])
  }

  ghost function ReportedCalls(): ProviderStats -> real {
    (p: ProviderStats) => p.calls as real
  }

  // A rate, weighted by the calls.
  ghost function WeightedRate(): ProviderStats -> real {
    (p: ProviderStats) => p.failureRate * p.calls as real
  }

  lemma RateOfTally(t: Tally)
    requires t.failures <= t.calls
    ensures RateFits(StatsOfTally(t), t.failures) && (t.calls == 0 ==> StatsOfTally(t).failureRate == 0.0)
    ensures WeightedRate()(StatsOfTally(t)) == Failures()(t)
  {
  }

  lemma ReportAtTally(records: seq<CallRecord>, byProvider: map<string, Tally>, h: string)
    requires TallyAt(records, byProvider, h)
    ensures ReportAt(records, Report(byProvider), h)
    ensures h in byProvider ==> WeightedRate()(Report(byProvider)[h]) == Failures()(byProvider[h])
  {
    if h in byProvider {
      RateOfTally(byProvider[h]);
    }
  }

  lemma ReportMeaning(records: seq<CallRecord>, byProvider: map<string, Tally>)
    requires IsTally(records, byProvider)
    ensures IsReport(records, Report(byProvider))
    ensures SumOver(Report(byProvider), ReportedCalls()) == SumOver(byProvider, Calls())
    ensures SumOver(Report(byProvider), WeightedRate()) == SumOver(byProvider, Failures())
  {
    var report := Report(byProvider);
    forall h: string
      ensures ReportAt(records, report, h)
      ensures h in byProvider ==> WeightedRate()(report[h]) == Failures()(byProvider[h])
    {
      assert TallyAt(records, byProvider, h);
      ReportAtTally(records, byProvider, h);
    }
    assert report.Keys == byProvider.Keys;
    SumSame(report, ReportedCalls(), byProvider, Calls());
    SumSame(report, WeightedRate(), byProvider, Failures());
  }

  /**
   What getStats reports: the report of the providers is exact, their calls sum to the total, the overall
   rate is the mean of their rates, weighted by their calls, and the latency is the nearest integer to
   the mean.
   */
  ghost predicate IsStats(records: seq<CallRecord>, stats: Stats) {
    && IsReport(records, stats.byProvider)
    && stats.totalCalls == |records|
    && stats.totalCalls as real == SumOver(stats.byProvider, ReportedCalls())
    && RateFits(ProviderStats(stats.totalCalls, stats.failureRate), CountFailures(records))
    && CountFailures(records) as real == SumOver(stats.byProvider, WeightedRate())
    && IsMean(SumLatency(records), stats.totalCalls, stats.avgLatencyMs)
    && (stats.totalCalls == 0 ==> stats.failureRate == 0.0)
  }

  function StatsOf(records: seq<CallRecord>, byProvider: map<string, Tally>): Stats {
    var all := StatsOfTally(Tally(|records|, CountFailures(records)));
    Stats(all.calls, all.failureRate, RoundedMean(SumLatency(records), |records|), Report(byProvider))
  }

  lemma StatsMeaning(records: seq<CallRecord>, byProvider: map<string, Tally>)
    requires IsTally(records, byProvider)
    requires SumOver(byProvider, Calls()) == |records| as real
    requires SumOver(byProvider, Failures()) == CountFailures(records) as real
    ensures IsStats(records, StatsOf(records, byProvider))
  {
    ReportMeaning(records, byProvider);
    RateOfTally(Tally(|records|, CountFailures(records)));
  }

  lemma DivideBack(x: real, c: real)
    requires c > 0.0
    ensures x * c / c == x
  {
  }

  lemma SameRate(p: ProviderStats, q: ProviderStats, failures: nat)
    requires p.calls == q.calls != 0 && RateFits(p, failures) && RateFits(q, failures)
    ensures p == q
  {
    DivideBack(p.failureRate, p.calls as real);
    DivideBack(q.failureRate, p.calls as real);
  }

  lemma SameReportAt(records: seq<CallRecord>, count: int, before: map<string, ProviderStats>,
                     after: map<string, ProviderStats>, h: string)
    requires ReportAt(records, before, h) && ReportAt(MarkFirst(records, count), after, h)
    ensures h in before <==> h in after
    ensures h in before ==> before[h] == after[h]
  {
    MarkKeepsStats(records, count, h);
    if h in before && h in after {
      SameRate(before[h], after[h], CountFailures(OfHost(records, h)));
    }
  }

  /** Delivery does not move the statistics: every provider keeps its calls and its failure rate. */
  lemma StatsIgnoreSync(records: seq<CallRecord>, count: int, before: map<string, ProviderStats>,
                        after: map<string, ProviderStats>)
    requires IsReport(records, before) && IsReport(MarkFirst(records, count), after)
    ensures before == after
  {
    forall h: string
      ensures h in before <==> h in after
      ensures h in before ==> before[h] == after[h]
    {
      assert ReportAt(records, before, h) && ReportAt(MarkFirst(records, count), after, h);
      SameReportAt(records, count, before, after, h);
    }
    assert before.Keys == after.Keys;
  }

  // The last "limit" records, as slice(-limit) gives them (a limit of zero means no limit; a
  // negative one drops that many from the front).
  function LastRecords(records: seq<CallRecord>, limit: int): (last: seq<CallRecord>)
    ensures |last| <= |records| && last == records[|records| - |last|..]
    ensures |last| == if limit == 0 || |records| < limit then |records|
                      else if 0 < limit then limit
                      else if -limit <= |records| then |records| + limit else 0
  {
    if limit == 0 then records
    else if limit < 0 then (if -limit <= |records| then records[-limit..] else [])
    else if limit <= |records| then records[|records| - limit..] else records
  }

  // ---------------------------------------------------------------------------------------------
  // The object
  // ---------------------------------------------------------------------------------------------

  lemma Regroup(done: seq<CallRecord>, record: CallRecord, rest: seq<CallRecord>)
    ensures done + ([record] + rest) == done + [record] + rest
  {
  }

  class PactStorage {
    const codec: Codec
    var file: Option<string>

    constructor (codec: Codec, file: Option<string>)
      ensures this.codec == codec && this.file == file
    {
      this.codec := codec;
      this.file := file;
    }

    // The file is one that the store wrote itself.
    ghost predicate Valid()
      reads this
    {
      && codec.Lawful()
      && ReadFile(codec, file).Some?
      && Represents(codec, file, ReadFile(codec, file).value)
    }

    ghost function Records(): seq<CallRecord>
      reads this
      requires Valid()
    {
      ReadFile(codec, file).value
    }

    method Append(record: CallRecord)
      modifies this
      ensures file == Some(AppendToFile(codec, old(file), record))
      ensures old(Valid()) ==> Valid() && Records() == old(Records()) + [record]
    {
      ghost var before := file;
      file := Some(AppendToFile(codec, file, record));
      if old(Valid()) {
        AppendRepresented(codec, before, ReadFile(codec, before).value, record);
        ReadRepresented(codec, file, ReadFile(codec, before).value + [record]);
      }
    }

    // The records of a file that represents any; None: a line did not parse and the read threw.
    method ReadAll() returns (records: Option<seq<CallRecord>>)
      ensures records == ReadFile(codec, file)
      ensures codec.Lawful() ==> forall rs :: Represents(codec, file, rs) ==> records == Some(rs)
    {
      if file.None? { return Some([]); }
      var content := Trim(file.value);
      records := if content == "" then Some([]) else DecodeAll(codec, SplitLines(content));
      if codec.Lawful() {
        forall rs | Represents(codec, file, rs)
          ensures records == Some(rs)
        {
          ReadRepresented(codec, file, rs);
        }
      }
    }

    method GetUnsynced() returns (unsynced: Option<seq<CallRecord>>)
      ensures unsynced.Some? <==> ReadFile(codec, file).Some?
      ensures unsynced.Some? ==> unsynced.value == Unsynced(ReadFile(codec, file).value)
    {
      var records := ReadAll();
      unsynced := match records case None => None case Some(rs) => Some(Unsynced(rs));
    }

    static method MarkLoop(records: seq<CallRecord>, count: int) returns (out: seq<CallRecord>)
      ensures out == MarkFirst(records, count)
    {
      out := [];
      var marked := 0;
      for i := 0 to |records|
        invariant out + MarkFirst(records[i..], count - marked) == MarkFirst(records, count)
      {
        var record := records[i];
        ghost var done, before := out, marked;
        if !record.synced && marked < count {
          record := record.(synced := true);
          marked := marked + 1;
        }
        out := out + [record];
        ghost var rest := MarkFirst(records[i + 1..], count - marked);
        assert MarkFirst(records[i..], count - before) == [record] + rest by {
          assert records[i..][1..] == records[i + 1..];
        }
        Regroup(done, record, rest);
      }
    }

    // Returns false, leaving the file as it was, when the read throws.
    method MarkSynced(count: int) returns (ok: bool)
      modifies this
      ensures ok <==> ReadFile(codec, old(file)).Some?
      ensures !ok ==> file == old(file)
      ensures ok ==> file == Some(RewriteFile(codec, MarkFirst(ReadFile(codec, old(file)).value, count)))
      ensures old(Valid()) ==> Valid() && Records() == MarkFirst(old(Records()), count)
    {
      var read := ReadAll();
      if read.None? { return false; }
      var out := MarkLoop(read.value, count);
      file := Some(RewriteFile(codec, out));
      ok := true;
      if old(Valid()) {
        RewriteRepresented(codec, out);
        ReadRepresented(codec, file, out);
      }
    }

    static method CountCall(byProvider: map<string, Tally>, r: CallRecord) returns (after: map<string, Tally>)
      ensures after == Bump(byProvider, r)
    {
      after := byProvider;
      if r.hostname !in after {
        after := after[r.hostname := Tally(0, 0)];
      }
      after := after[r.hostname := after[r.hostname].(calls := after[r.hostname].calls + 1)];
      if r.classification != Success {
        after := after[r.hostname := after[r.hostname].(failures := after[r.hostname].failures + 1)];
      }
    }

    static method TallyLoop(records: seq<CallRecord>) returns (byProvider: map<string, Tally>)
      ensures IsTally(records, byProvider)
      ensures SumOver(byProvider, Calls()) == |records| as real
      ensures SumOver(byProvider, Failures()) == CountFailures(records) as real
    {
      byProvider := map[];
      for i := 0 to |records|
        invariant IsTally(records[..i], byProvider)
        invariant SumOver(byProvider, Calls()) == i as real
        invariant SumOver(byProvider, Failures()) == CountFailures(records[..i]) as real
      {
        var r := records[i];
        ghost var before := byProvider;
        BumpTally(records[..i], before, r);
        BumpSums(before, r);
        CountFailuresAppend(records[..i], r);
        assert records[..i + 1] == records[..i] + [r];
        byProvider := CountCall(byProvider, r);
      }
      assert records[..|records|] == records;
    }

    method GetStats() returns (result: Option<Stats>)
      ensures result.Some? <==> ReadFile(codec, file).Some?
      ensures result.Some? ==> IsStats(ReadFile(codec, file).value, result.value)
    {
      var read := ReadAll();
      if read.None? { return None; }
      var byProvider := TallyLoop(read.value);
      StatsMeaning(read.value, byProvider);
      result := Some(StatsOf(read.value, byProvider));
    }

    // The last records of the provider, or of all, in the order of the file.
    method GetRecords(limit: int, provider: Option<string>) returns (result: Option<seq<CallRecord>>)
      ensures result.Some? <==> ReadFile(codec, file).Some?
      ensures result.Some? ==>
                var all, filtered := ReadFile(codec, file).value, provider.Some? && provider.value != "";
                var from := if filtered then OfHost(all, provider.value) else all;
                && |result.value| <= |from| && result.value == from[|from| - |result.value|..]
                && (0 < limit ==> |result.value| == if |from| < limit then |from| else limit)
                && (limit == 0 ==> result.value == from)
                && (limit < 0 ==> |result.value| == if -limit <= |from| then |from| + limit else 0)
    {
      var read := ReadAll();
      if read.None? { return None; }
      var records := read.value;
      if provider.Some? && provider.value != "" {
        records := OfHost(records, provider.value);
      }
      result := Some(LastRecords(records, limit));
    }
  }
}

/**
 The append-only detection log of `DetectionLogger`.

 The JSON Lines file is the sequence of entries it holds, oldest first; a
 missing file is the empty sequence. Next to it the logger keeps an in-memory
 cache of counters, which the constructor starts empty even when the file
 already holds entries. The statistics and the date query are computed from
 the log alone, so they are functions of the sequence and change nothing.
 */
module DetectionLogger {
  import opened PyNone
  import Counter

  /** The open metadata dictionary, with its values taken as strings. */
  type Metadata = map<string, string>

  /** One line of the log: `{timestamp, class, confidence, alert_sent, metadata}`. */
  datatype Entry = Entry(
    timestamp: string,
    className: string,
    confidence: real,
    alertSent: bool,
    metadata: Metadata)

  /** The cache keys that hold the two running totals. */
  const TotalKey: string := "total_detections"
  const AlertsKey: string := "total_alerts_sent"

  /** How many of the latest entries the statistics report. */
  const RecentWindow: nat := 10

  datatype Logger = Logger(log: seq<Entry>, cache: Counter.Counts)

  /** The constructor: the file on disk is kept, the cache starts empty. */
  function Open(persisted: seq<Entry>): (r: Logger)
    ensures r.log == persisted
    ensures forall k :: Counter.Get(r.cache, k) == 0
  {
    Logger(persisted, map[])
  }

  /** Python's `metadata or {}`: no metadata is stored as the empty dictionary. */
  function OrEmpty(metadata: Nullable<Metadata>): Metadata {
    match metadata
    case Null => map[]
    case Value(m) => m
  }

  /** The entry `log_detection` writes; absent or empty metadata becomes `{}`. */
  function MakeEntry(className: string, confidence: real, timestamp: string, alertSent: bool, metadata: Nullable<Metadata>): Entry {
    Entry(timestamp, className, confidence, alertSent, OrEmpty(metadata))
  }

  /** `log_detection`: append one entry and bump the cache counters for its
      class, for the total, and for the alert total when an alert was sent.
      The cache is one dictionary, so a class named like a total key bumps
      that key twice. */
  function LogDetection(l: Logger, className: string, confidence: real, timestamp: string, alertSent: bool, metadata: Nullable<Metadata>): (r: Logger)
    ensures |r.log| == |l.log| + 1
    ensures r.log[..|l.log|] == l.log
    ensures r.log[|l.log|] == Entry(timestamp, className, confidence, alertSent, OrEmpty(metadata))
    ensures forall k ::
              Counter.Get(r.cache, k)
              == Counter.Get(l.cache, k)
                 + (if k == className then 1 else 0)
                 + (if k == TotalKey then 1 else 0)
                 + (if alertSent && k == AlertsKey then 1 else 0)
  {
    var byClass := Counter.Bump(l.cache, className);
    var total := Counter.Bump(byClass, TotalKey);
    var alerts := if alertSent then Counter.Bump(total, AlertsKey) else total;
    Logger(l.log + [MakeEntry(className, confidence, timestamp, alertSent, metadata)], alerts)
  }

  /** `clear_logs`: delete the file and empty the cache. */
  function ClearLogs(l: Logger): (r: Logger)
    ensures r.log == [] && r.cache == map[]
    ensures r == Open([])
  {
    Logger([], map[])
  }

  // ---------------------------------------------------------------------------
  // Reading the file

  /** One line of the JSON Lines file as `_read_all_detections` sees it: blank,
      a record that parses, or a line `json.loads` rejects. */
  datatype Line = Blank | Record(entry: Entry) | Malformed

  /** The lines `log_detection` appends for `es`, one record per entry. */
  function Written(es: seq<Entry>): (ls: seq<Line>)
    ensures |ls| == |es|
    ensures forall i :: 0 <= i < |es| ==> ls[i] == Record(es[i])
  {
    seq(|es|, i requires 0 <= i < |es| => Record(es[i]))
  }

  /** `_read_all_detections`: blank lines are skipped, and the first line that
      does not parse ends the read, keeping the entries read before it. */
  function ReadAll(lines: seq<Line>): (r: seq<Entry>)
    ensures |r| <= |lines|
    decreases |lines|
  {
    if lines == [] then []
    else
      match lines[0]
      case Blank => ReadAll(lines[1..])
      case Record(e) => [e] + ReadAll(lines[1..])
      case Malformed => []
  }

  /** Reading back the lines written for some entries gives those entries, in order. */
  lemma {:induction false} ReadAllOfWritten(es: seq<Entry>)
    ensures ReadAll(Written(es)) == es
    decreases |es|
  {
    if es != [] {
      assert Written(es)[1..] == Written(es[1..]);
      ReadAllOfWritten(es[1..]);
    }
  }

  /** Before the first malformed line, reading distributes over the file. */
  lemma {:induction false} ReadAllOfAppend(a: seq<Line>, b: seq<Line>)
    requires Malformed !in a
    ensures ReadAll(a + b) == ReadAll(a) + ReadAll(b)
    decreases |a|
  {
    if a == [] {
      assert a + b == b;
    } else {
      assert (a + b)[0] == a[0];
      assert (a + b)[1..] == a[1..] + b;
      assert Malformed !in a[1..] by {
        forall i | 0 <= i < |a[1..]| ensures a[1..][i] != Malformed {
          assert a[1..][i] == a[i + 1];
        }
      }
      ReadAllOfAppend(a[1..], b);
    }
  }

  /** A line that does not parse hides every line after it, whatever they hold. */
  lemma ReadAllStopsAtMalformed(a: seq<Line>, b: seq<Line>)
    requires Malformed !in a
    ensures ReadAll(a + [Malformed] + b) == ReadAll(a)
  {
    assert a + [Malformed] + b == a + ([Malformed] + b);
    ReadAllOfAppend(a, [Malformed] + b);
  }

  /** A blank line anywhere changes nothing that is read. */
  lemma {:induction false} ReadAllSkipsBlank(a: seq<Line>, b: seq<Line>)
    ensures ReadAll(a + [Blank] + b) == ReadAll(a + b)
    decreases |a|
  {
    if a == [] {
      assert a + [Blank] + b == [Blank] + b;
      assert ([Blank] + b)[1..] == b;
      assert a + b == b;
    } else {
      assert (a + [Blank] + b)[0] == a[0] && (a + b)[0] == a[0];
      assert (a + [Blank] + b)[1..] == a[1..] + [Blank] + b;
      assert (a + b)[1..] == a[1..] + b;
      ReadAllSkipsBlank(a[1..], b);
    }
  }

  /** On a file with no malformed line, an appended detection is read back last. */
  lemma AppendedEntryIsRead(lines: seq<Line>, e: Entry)
    requires Malformed !in lines
    ensures ReadAll(lines + Written([e])) == ReadAll(lines) + [e]
  {
    ReadAllOfAppend(lines, Written([e]));
    ReadAllOfWritten([e]);
  }

  /** Once the file holds a malformed line, whatever is appended after it is
      never read again. */
  lemma {:induction false} AppendedAfterMalformedIsLost(lines: seq<Line>, more: seq<Line>)
    requires Malformed in lines
    ensures ReadAll(lines + more) == ReadAll(lines)
    decreases |lines|
  {
    assert (lines + more)[0] == lines[0];
    if lines[0] != Malformed {
      var i :| 0 <= i < |lines| && lines[i] == Malformed;
      assert lines[1..][i - 1] == Malformed;
      assert (lines + more)[1..] == lines[1..] + more;
      AppendedAfterMalformedIsLost(lines[1..], more);
    }
  }

  // ---------------------------------------------------------------------------
  // Reference counts, each defined on its own

  /** How many entries record class `c`. */
  function ClassCount(log: seq<Entry>, c: string): (n: nat)
    ensures n <= |log|
    decreases |log|
  {
    if log == [] then 0
    else (if log[0].className == c then 1 else 0) + ClassCount(log[1..], c)
  }

  /** How many entries record an alert as sent. */
  function AlertCount(log: seq<Entry>): (n: nat)
    ensures n <= |log|
    decreases |log|
  {
    if log == [] then 0
    else (if log[0].alertSent then 1 else 0) + AlertCount(log[1..])
  }

  /** The classes that occur in the log. */
  function ClassesOf(log: seq<Entry>): set<string> {
    set i | 0 <= i < |log| :: log[i].className
  }

  /** A class is counted exactly when it occurs in the log. */
  lemma {:induction false} ClassCountPositive(log: seq<Entry>)
    ensures forall c :: ClassCount(log, c) > 0 <==> c in ClassesOf(log)
    decreases |log|
  {
    if log != [] {
      ClassCountPositive(log[1..]);
      assert ClassesOf(log) == {log[0].className} + ClassesOf(log[1..]) by {
        forall c | c in ClassesOf(log) ensures c in {log[0].className} + ClassesOf(log[1..]) {
          var i :| 0 <= i < |log| && log[i].className == c;
          if i > 0 {
            assert log[1..][i - 1] == log[i];
          }
        }
        forall c | c in ClassesOf(log[1..]) ensures c in ClassesOf(log) {
          var i :| 0 <= i < |log[1..]| && log[1..][i].className == c;
          assert log[i + 1] == log[1..][i];
        }
      }
    }
  }

  /** The sum of the confidences of all entries. */
  function ConfidenceSum(log: seq<Entry>): real
    decreases |log|
  {
    if log == [] then 0.0
    else log[0].confidence + ConfidenceSum(log[1..])
  }

  /** The counts split off the first entry also split off a whole prefix. */
  lemma {:induction false} CountsOfAppend(a: seq<Entry>, b: seq<Entry>)
    ensures forall c :: ClassCount(a + b, c) == ClassCount(a, c) + ClassCount(b, c)
    ensures AlertCount(a + b) == AlertCount(a) + AlertCount(b)
    ensures ConfidenceSum(a + b) == ConfidenceSum(a) + ConfidenceSum(b)
    decreases |a|
  {
    if a != [] {
      CountsOfAppend(a[1..], b);
      assert (a + b)[1..] == a[1..] + b;
    } else {
      assert a + b == b;
    }
  }

  // ---------------------------------------------------------------------------
  // get_stats

  /** The running totals of the `for det in detections` loop. */
  datatype Tally = Tally(byClass: Counter.Counts, alerts: nat, confidenceSum: real)

  /** The totals of the `for det in detections` loop. Every total is a sum of
      one term per entry, so folding from either end gives the same result;
      this fold takes the oldest entry last. */
  function TallyOf(log: seq<Entry>): (t: Tally)
    ensures forall c :: Counter.Get(t.byClass, c) == ClassCount(log, c)
    ensures forall c :: c in t.byClass <==> ClassCount(log, c) > 0
    ensures Counter.Sum(t.byClass) == |log|
    ensures t.alerts == AlertCount(log)
    ensures t.confidenceSum == ConfidenceSum(log)
    decreases |log|
  {
    if log == [] then Tally(map[], 0, 0.0)
    else
      var det := log[0];
      var t := TallyOf(log[1..]);
      Counter.SumBump(t.byClass, det.className);
      Tally(
        Counter.Bump(t.byClass, det.className),
        (if det.alertSent then 1 else 0) + t.alerts,
        det.confidence + t.confidenceSum)
  }

  /** The dictionary `get_stats` returns. */
  datatype Stats = Stats(
    totalDetections: nat,
    alertsSent: nat,
    averageConfidence: real,
    detectionsByClass: Counter.Counts,
    recentDetections: seq<Entry>)

  /** `sum / count` on a positive count. */
  function Mean(sum: real, count: nat): (m: real)
    requires count > 0
    ensures m * (count as real) == sum
  {
    sum / (count as real)
  }

  /** The mean confidence `get_stats` reports: 0 on an empty log, otherwise
      the confidences' sum divided by the number of entries. */
  function AverageConfidence(log: seq<Entry>): (a: real)
    ensures |log| == 0 ==> a == 0.0
    ensures |log| > 0 ==> a * (|log| as real) == ConfidenceSum(log)
  {
    if |log| > 0 then Mean(ConfidenceSum(log), |log|) else 0.0
  }

  /** The all-zero statistics: what `get_stats` computes for an empty log, and
      also what it returns when its counting loop raises. */
  const NoStats: Stats := Stats(0, 0, 0.0, map[], [])

  /** `get_stats`: count, alerts sent, mean confidence (0 for an empty log),
      per-class histogram and the latest `RecentWindow` entries, all from one
      pass over the log. */
  function GetStats(log: seq<Entry>): (r: Stats)
    ensures r.totalDetections == |log|
    ensures r.alertsSent == AlertCount(log)
    ensures forall c :: Counter.Get(r.detectionsByClass, c) == ClassCount(log, c)
    ensures r.detectionsByClass.Keys == ClassesOf(log)
    ensures r.averageConfidence == AverageConfidence(log)
    ensures r.recentDetections == Recent(log)
  {
    var total := |log|;
    var t := TallyOf(log);
    ClassCountPositive(log);
    Stats(total, t.alerts, AverageConfidence(log), t.byClass, Recent(log))
  }

  /** `detections[-10:]`: the latest `RecentWindow` entries, oldest first. */
  function Recent(log: seq<Entry>): (r: seq<Entry>)
    ensures |r| == if |log| < RecentWindow then |log| else RecentWindow
    ensures forall k :: 0 <= k < |r| ==> r[k] == log[|log| - |r| + k]
  {
    if |log| > RecentWindow then log[|log| - RecentWindow..] else log
  }

  /** The histogram counts add up to the total. */
  lemma HistogramSumsToTotal(log: seq<Entry>)
    ensures Counter.Sum(GetStats(log).detectionsByClass) == GetStats(log).totalDetections
  {
    var t := TallyOf(log);
  }

  /** An empty log, and so a cleared one, yields the all-zero statistics. */
  lemma ClearedStatsAreZero(l: Logger)
    ensures GetStats(ClearLogs(l).log) == NoStats
  {
    var r := GetStats([]);
    assert r.detectionsByClass == map[] by {
      forall c ensures c !in r.detectionsByClass {
      }
    }
  }

  /** Read after write: one logged entry adds one to the total and to its
      class, one to the alert count exactly when an alert was sent, and leaves
      every other class alone. */
  lemma {:induction false} StatsAfterLog(l: Logger, className: string, confidence: real, timestamp: string, alertSent: bool, metadata: Nullable<Metadata>)
    ensures var before := GetStats(l.log);
            var after := GetStats(LogDetection(l, className, confidence, timestamp, alertSent, metadata).log);
            && after.totalDetections == before.totalDetections + 1
            && after.alertsSent == before.alertsSent + (if alertSent then 1 else 0)
            && Counter.Get(after.detectionsByClass, className) == Counter.Get(before.detectionsByClass, className) + 1
            && (forall c :: c != className ==> Counter.Get(after.detectionsByClass, c) == Counter.Get(before.detectionsByClass, c))
  {
    var e := MakeEntry(className, confidence, timestamp, alertSent, metadata);
    var log' := LogDetection(l, className, confidence, timestamp, alertSent, metadata).log;
    assert log' == l.log + [e];
    CountsOfAppend(l.log, [e]);
    assert [e][1..] == [];
    assert AlertCount([e]) == (if alertSent then 1 else 0);
    forall c
      ensures ClassCount(log', c) == ClassCount(l.log, c) + (if c == className then 1 else 0)
    {
      assert ClassCount([e], c) == (if c == className then 1 else 0);
    }
  }

  /** The recent window slides: an entry appended to the log joins the window
      at its end, pushing out the oldest entry once the window is full. */
  lemma RecentWindowSlides(log: seq<Entry>, e: Entry)
    ensures Recent(log + [e]) == (if |Recent(log)| == RecentWindow then Recent(log)[1..] else Recent(log)) + [e]
  {
    var log' := log + [e];
    var n := |log|;
    if n >= RecentWindow {
      assert log'[n + 1 - RecentWindow..] == log[n + 1 - RecentWindow..] + [e];
      assert Recent(log)[1..] == log[n + 1 - RecentWindow..];
    }
  }

  /** Bounds: when every confidence lies in [0, 1], so does the mean. */
  lemma {:induction false} AverageConfidenceBounded(log: seq<Entry>)
    requires forall i :: 0 <= i < |log| ==> 0.0 <= log[i].confidence <= 1.0
    ensures 0.0 <= AverageConfidence(log) <= 1.0
  {
    ConfidenceSumBounded(log);
    if |log| > 0 {
      MeanBounded(ConfidenceSum(log), |log|);
    }
  }

  /** A sum of at most `count` values in [0, 1], divided by `count`, lies in [0, 1]. */
  lemma MeanBounded(sum: real, count: nat)
    requires count > 0
    requires 0.0 <= sum <= count as real
    ensures 0.0 <= Mean(sum, count) <= 1.0
  {
    var n := count as real;
    var m := Mean(sum, count);
    assert m == sum / n;
  }

  lemma {:induction false} ConfidenceSumBounded(log: seq<Entry>)
    requires forall i :: 0 <= i < |log| ==> 0.0 <= log[i].confidence <= 1.0
    ensures 0.0 <= ConfidenceSum(log) <= |log| as real
    decreases |log|
  {
    if log != [] {
      assert forall i :: 0 <= i < |log[1..]| ==> log[1..][i] == log[i + 1];
      ConfidenceSumBounded(log[1..]);
    }
  }

  /** A worked case: confidences 0.9, 0.6 and 0.3, two of them alerted, give
      three detections, two alerts and a mean of 0.6. */
  lemma ThreeDetectionsExample(ts: string, meta: Metadata)
    ensures var log := [Entry(ts, "gun", 0.9, true, meta), Entry(ts, "knife", 0.6, true, meta), Entry(ts, "gun", 0.3, false, meta)];
            var r := GetStats(log);
            r.totalDetections == 3 && r.alertsSent == 2 && r.averageConfidence == 0.6
            && Counter.Get(r.detectionsByClass, "gun") == 2 && Counter.Get(r.detectionsByClass, "knife") == 1
            && r.recentDetections == log
  {
    var e0, e1, e2 := Entry(ts, "gun", 0.9, true, meta), Entry(ts, "knife", 0.6, true, meta), Entry(ts, "gun", 0.3, false, meta);
    var log := [e0, e1, e2];
    assert log[1..] == [e1, e2];
    assert [e1, e2][1..] == [e2];
    assert [e2][1..] == [];
    assert ConfidenceSum([e2]) == 0.3 && ConfidenceSum([e1, e2]) == 0.9 && ConfidenceSum(log) == 1.8;
    assert AlertCount([e2]) == 0 && AlertCount([e1, e2]) == 1 && AlertCount(log) == 2;
    assert ClassCount([e2], "gun") == 1 && ClassCount([e1, e2], "gun") == 1 && ClassCount(log, "gun") == 2;
    assert ClassCount([e2], "knife") == 0 && ClassCount([e1, e2], "knife") == 1 && ClassCount(log, "knife") == 1;
  }

  // ---------------------------------------------------------------------------
  // get_detections_by_date

  /** `a` occurs in `b` in the same order, possibly with gaps. */
  ghost predicate IsSubsequence(a: seq<Entry>, b: seq<Entry>)
    decreases |b|
  {
    if a == [] then true
    else if b == [] then false
    else if a[0] == b[0] then IsSubsequence(a[1..], b[1..])
    else IsSubsequence(a, b[1..])
  }

  /** The entry's timestamp starts with `date`, as a plain string prefix. */
  predicate OnDate(e: Entry, date: string) {
    date <= e.timestamp
  }

  /** `get_detections_by_date`: the entries whose timestamp starts with
      `date`, kept in log order. */
  function GetDetectionsByDate(log: seq<Entry>, date: string): (r: seq<Entry>)
    ensures forall i :: 0 <= i < |r| ==> OnDate(r[i], date)
    ensures IsSubsequence(r, log)
    decreases |log|
  {
    if log == [] then []
    else
      var rest := GetDetectionsByDate(log[1..], date);
      if OnDate(log[0], date) then
        assert ([log[0]] + rest)[1..] == rest;
        [log[0]] + rest
      else
        rest
  }

  /** The date query keeps every entry on that date, as often as the log holds
      it, and no entry on any other date. */
  lemma {:induction false} ByDateSelectsExactly(log: seq<Entry>, date: string)
    ensures forall e :: multiset(GetDetectionsByDate(log, date))[e] == if OnDate(e, date) then multiset(log)[e] else 0
    ensures forall e :: e in GetDetectionsByDate(log, date) <==> e in log && OnDate(e, date)
    decreases |log|
  {
    if log != [] {
      ByDateSelectsExactly(log[1..], date);
      assert log == [log[0]] + log[1..];
    }
  }

  /** The date query distributes over the log: entries logged later only ever
      extend the answer at its end. */
  lemma {:induction false} ByDateOfAppend(a: seq<Entry>, b: seq<Entry>, date: string)
    ensures GetDetectionsByDate(a + b, date) == GetDetectionsByDate(a, date) + GetDetectionsByDate(b, date)
    decreases |a|
  {
    if a == [] {
      assert a + b == b;
    } else {
      var ab := a + b;
      assert ab[0] == a[0];
      assert ab[1..] == a[1..] + b;
      ByDateOfAppend(a[1..], b, date);
      var restA := GetDetectionsByDate(a[1..], date);
      var restB := GetDetectionsByDate(b, date);
      if OnDate(a[0], date) {
        assert GetDetectionsByDate(ab, date) == [a[0]] + (restA + restB);
        assert GetDetectionsByDate(a, date) == [a[0]] + restA;
      } else {
        assert GetDetectionsByDate(ab, date) == restA + restB;
        assert GetDetectionsByDate(a, date) == restA;
      }
    }
  }

  /** A logged entry shows up, last, in the answer for every prefix of its timestamp. */
  lemma LoggedEntryFoundByDate(l: Logger, className: string, confidence: real, timestamp: string, alertSent: bool, metadata: Nullable<Metadata>, date: string)
    ensures var e := MakeEntry(className, confidence, timestamp, alertSent, metadata);
            var log' := LogDetection(l, className, confidence, timestamp, alertSent, metadata).log;
            GetDetectionsByDate(log', date)
            == GetDetectionsByDate(l.log, date) + (if date <= timestamp then [e] else [])
  {
    var e := MakeEntry(className, confidence, timestamp, alertSent, metadata);
    var log' := LogDetection(l, className, confidence, timestamp, alertSent, metadata).log;
    assert log' == l.log + [e];
    ByDateOfAppend(l.log, [e], date);
    assert [e][1..] == [];
  }

  // ---------------------------------------------------------------------------
  // The cache over a session of calls

  /** The arguments of one `log_detection` call. */
  datatype LogCall = LogCall(className: string, confidence: real, timestamp: string, alertSent: bool, metadata: Nullable<Metadata>)

  function Log(l: Logger, call: LogCall): Logger {
    LogDetection(l, call.className, call.confidence, call.timestamp, call.alertSent, call.metadata)
  }

  /** The logger after `calls`, in order. */
  function LogAll(l: Logger, calls: seq<LogCall>): Logger
    decreases |calls|
  {
    if calls == [] then l
    else Log(LogAll(l, calls[..|calls| - 1]), calls[|calls| - 1])
  }

  /** The entries `calls` write. */
  function EntriesOf(calls: seq<LogCall>): (es: seq<Entry>)
    ensures |es| == |calls|
    decreases |calls|
  {
    if calls == [] then []
    else
      var c := calls[|calls| - 1];
      EntriesOf(calls[..|calls| - 1]) + [MakeEntry(c.className, c.confidence, c.timestamp, c.alertSent, c.metadata)]
  }

  /** Every cache key counts what the entries `logged` imply: its class count,
      plus the number of entries for the total key, plus the alerts for the
      alert key. */
  ghost predicate CacheReflects(cache: Counter.Counts, logged: seq<Entry>) {
    forall k ::
      Counter.Get(cache, k)
      == ClassCount(logged, k)
         + (if k == TotalKey then |logged| else 0)
         + (if k == AlertsKey then AlertCount(logged) else 0)
  }

  /** Over one process lifetime the file grows by exactly the entries logged. */
  lemma {:induction false} SessionLog(persisted: seq<Entry>, calls: seq<LogCall>)
    ensures LogAll(Open(persisted), calls).log == persisted + EntriesOf(calls)
    decreases |calls|
  {
    if calls != [] {
      SessionLog(persisted, calls[..|calls| - 1]);
    }
  }

  /** Over one process lifetime the cache counts the entries logged, never the
      ones the file held when the logger was opened. */
  lemma {:induction false} SessionCache(persisted: seq<Entry>, calls: seq<LogCall>)
    ensures CacheReflects(LogAll(Open(persisted), calls).cache, EntriesOf(calls))
    decreases |calls|
  {
    if calls != [] {
      var prev := calls[..|calls| - 1];
      var c := calls[|calls| - 1];
      SessionCache(persisted, prev);
      var e := MakeEntry(c.className, c.confidence, c.timestamp, c.alertSent, c.metadata);
      CountsOfAppend(EntriesOf(prev), [e]);
      assert EntriesOf(calls) == EntriesOf(prev) + [e];
    } else {
      assert forall k :: Counter.Get(map[], k) == 0;
    }
  }

  /** On a logger opened on an empty (or cleared) file, the cached totals agree
      with `get_stats` as long as no class is named like a total key. */
  lemma CacheMatchesStatsFromEmpty(calls: seq<LogCall>)
    requires forall i :: 0 <= i < |calls| ==> calls[i].className != TotalKey && calls[i].className != AlertsKey
    ensures var l := LogAll(Open([]), calls);
            && Counter.Get(l.cache, TotalKey) == GetStats(l.log).totalDetections
            && Counter.Get(l.cache, AlertsKey) == GetStats(l.log).alertsSent
  {
    SessionLog([], calls);
    SessionCache([], calls);
    var es := EntriesOf(calls);
    assert [] + es == es;
    EntriesClasses(calls);
    ClassCountPositive(es);
    assert TotalKey !in ClassesOf(es);
    assert AlertsKey !in ClassesOf(es);
  }

  lemma {:induction false} EntriesClasses(calls: seq<LogCall>)
    ensures forall i :: 0 <= i < |calls| ==> EntriesOf(calls)[i].className == calls[i].className
    decreases |calls|
  {
    if calls != [] {
      EntriesClasses(calls[..|calls| - 1]);
    }
  }
}

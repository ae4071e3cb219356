# Weapon-detection alerting and detection log, modelled in Dafny

The backend of the weapon-detection service has two stateful helpers. This
project models them and proves properties about them.

* **`AlertManager`** (`alert_manager.dfy`) is a 60-second cooldown gate plus
  a fan-out to up to three notification channels: SMS through Twilio, push
  through Firebase, and an e-mail stub. The manager's state is
  `last_alert_time`, which starts unset.
  * `ShouldSendAlert` is the gate as a pure transition over an integer clock.
  * `SendAlert` consults the gate, then tries each enabled channel and ORs
    the channel results together.
  * `ResetCooldown` clears the state.
  * The provider set-up the constructor finds is the `Providers` value.
    Whether a provider call on this request succeeds is an oracle `Replies`
    value.
  * `Op`, `Apply` and `After` run whole sequences of `send_alert` and
    `reset_cooldown` calls. They carry the cooldown spacing theorem.
* **`DetectionLogger`** (`detection_logger.dfy`) is an append-only JSON Lines
  log of detections plus an in-memory counter cache.
  * The file is a sequence of lines. `ReadAll` reads it the way
    `_read_all_detections` does: blank lines are skipped, and reading stops at
    the first line that does not parse. The rest of the model works on the
    entries read, a `seq<Entry>`. A missing file is the empty sequence.
  * `LogDetection` appends one entry and bumps the cache.
  * `GetStats` and `GetDetectionsByDate` are pure functions of the log. They
    therefore change neither the log nor the cache.
  * `ClearLogs` empties both the log and the cache.
  * `Open` is the constructor. It keeps the persisted file and starts an
    empty cache, which is why the cache can disagree with the file after a
    restart.
* **`Counter`** (`counter.dfy`) models Python's `defaultdict(int)`: a key
  that was never bumped reads as 0. The cache and the per-class histogram
  both use it. It also holds the ghost sum of all counts.
* **`PyNone`** (`nullable.dfy`) holds `Nullable`, a value that may be Python's
  `None`.

Notes on the model:
* The cooldown theorem (`GatePassesSpaced`, `SentAlertsSpaced`) needs only
  "no reset in between". It does not need the clock to be non-decreasing.
  Each pass of the gate is at least 60 seconds after the previous pass's
  clock reading, so passes stay spaced even if the clock jumps backwards.
* The code takes no lock around the gate's check-and-set. The model is
  sequential and claims nothing about concurrent callers.
* Spacing holds only while `reset_cooldown` is not called in between. The
  lemmas carry that hypothesis.

## Model

| member | source | states |
|---|---|---|
| AlertManager.ShouldSendAlert | backend/app/utils/alert_manager.py:81-101 | With no previous alert, the gate passes and records `now`. After one, it passes and records `now` exactly when at least 60 s have elapsed. Otherwise it refuses and leaves the state alone; a negative elapsed time (clock went back) is refused. |
| AlertManager.ResetCooldown | backend/app/utils/alert_manager.py:246-248 | After a reset, no last alert time is recorded. |
| AlertManager.ResetReopensGate | backend/app/utils/alert_manager.py:88-92 | After a reset, the next gate check passes whatever the clock reads, and records that reading. |
| AlertManager.SendSms | backend/app/utils/alert_manager.py:159-180 | Without a Twilio client the SMS attempt reports false. Otherwise it reports whether the Twilio call returned without raising. |
| AlertManager.SendPush | backend/app/utils/alert_manager.py:182-229 | Without an initialised Firebase app the push attempt reports false. Otherwise it reports whether the Firebase call returned without raising. |
| AlertManager.SendEmail | backend/app/utils/alert_manager.py:231-244 | The e-mail stub always reports success. |
| AlertManager.Attempts | backend/app/utils/alert_manager.py:131-144 | A channel is in the list tried iff its enable flag is on and its target is non-empty. The list is in SMS, push, e-mail order, without repeats. |
| AlertManager.Dispatch | backend/app/utils/alert_manager.py:126-146 | Folding `alert_sent = alert_sent or channel_result` over the tried channels gives true exactly when the initial flag or some tried channel succeeded. |
| AlertManager.SendAlert | backend/app/utils/alert_manager.py:103-146 | A refused gate means the call reports false, tries no channel and changes no state. Otherwise the cooldown restarts at `now`. A channel is tried iff its enable flag is on and its target is non-empty. Channels are tried in SMS, push, e-mail order, each at most once. The call reports true iff some tried channel succeeded. |
| AlertManager.SingleChannelDecides | backend/app/utils/alert_manager.py:131-146 | With the cooldown over and exactly one channel enabled, only that channel is tried, and `send_alert` reports exactly its result. |
| AlertManager.EmailAlwaysSucceeds | backend/app/utils/alert_manager.py:231-244 | The e-mail stub always succeeds, so a call that passes the gate with e-mail enabled reports true. |
| AlertManager.OnlyEmailWithoutProviders | backend/app/utils/alert_manager.py:159-186 | With no Twilio client and no Firebase, SMS and push never succeed. A call then reports true iff it passes the gate with e-mail enabled. |
| AlertManager.FailedAlertStillStartsCooldown | backend/app/utils/alert_manager.py:122-134 | Suppose SMS is the only channel and Twilio is not configured. A call that passes the gate reports false, yet it records `now`. Every later call whose clock reads less than 60 s after it is then refused and tries nothing, even if the clock went back. |
| AlertManager.Apply | backend/app/utils/alert_manager.py:103-124 | In a call sequence, only the gate moves the state. A call reports true only if it is a `send_alert` whose gate check passed. |
| AlertManager.LastAlertNeverEarlier | backend/app/utils/alert_manager.py:90-98 | After a gate pass and until the next reset, the recorded last alert time is set and never earlier than that pass's clock. |
| AlertManager.GatePassesSpaced | backend/app/utils/alert_manager.py:81-101 | Take any call sequence and any two gate passes with no reset between them. They are at least 60 s apart on the clock. |
| AlertManager.SentAlertsSpaced | backend/app/utils/alert_manager.py:103-124 | Take any call sequence and any two `send_alert` calls that report true, with no reset between them. They are at least 60 s apart on the clock. |
| Counter.Bump | backend/app/utils/detection_logger.py:64-67 | `m[k] += 1` on a defaultdict adds one to `k`, adds `k` to the keys and leaves every other count unchanged. |
| Counter.SumBump | backend/app/utils/detection_logger.py:92 | One bump adds exactly one to the sum of all counts. |
| DetectionLogger.Open | backend/app/utils/detection_logger.py:22-30 | A new logger keeps the entries already in the file, and every cache counter reads zero. |
| DetectionLogger.ReadAll | backend/app/utils/detection_logger.py:121-136 | Reading yields at most one entry per line of the file. |
| DetectionLogger.ReadAllOfWritten | backend/app/utils/detection_logger.py:59-61 | Reading back the lines written for a sequence of entries gives exactly those entries, in order. |
| DetectionLogger.ReadAllOfAppend | backend/app/utils/detection_logger.py:128-134 | Before the first malformed line, reading a file made of two parts gives the entries of the first part followed by those of the second. |
| DetectionLogger.ReadAllStopsAtMalformed | backend/app/utils/detection_logger.py:128-136 | A line that does not parse ends the read. The entries before it are kept, and every line after it is ignored. |
| DetectionLogger.ReadAllSkipsBlank | backend/app/utils/detection_logger.py:131-133 | A blank line anywhere in the file changes nothing that is read. |
| DetectionLogger.AppendedEntryIsRead | backend/app/utils/detection_logger.py:59-61 | On a file with no malformed line, an appended detection is read back as the last entry. |
| DetectionLogger.AppendedAfterMalformedIsLost | backend/app/utils/detection_logger.py:128-136 | Once the file holds a malformed line, nothing appended later is ever read, so later detections are missing from `get_stats` and the date query. |
| DetectionLogger.LogDetection | backend/app/utils/detection_logger.py:50-67 | The log grows by exactly one entry `{timestamp, class, confidence, alert_sent, metadata or {}}` and earlier entries are unchanged. For every cache key, the new count is the old count plus one for the class, plus one for `total_detections`, plus one for `total_alerts_sent` iff an alert was sent. |
| DetectionLogger.ClearLogs | backend/app/utils/detection_logger.py:154-160 | The log and the cache are empty, the same state as a logger opened on a missing file. |
| DetectionLogger.ClassCountPositive | backend/app/utils/detection_logger.py:87-92 | A class has a non-zero count exactly when some entry records it. |
| DetectionLogger.TallyOf | backend/app/utils/detection_logger.py:86-95 | The pass over the log gives, for each class, the number of entries recording it. Its keys are exactly the classes that occur. The counts sum to the log length. It also gives the number of entries with an alert sent and the sum of confidences. |
| DetectionLogger.Mean | backend/app/utils/detection_logger.py:97-98 | The mean times the count is the sum. |
| DetectionLogger.AverageConfidence | backend/app/utils/detection_logger.py:89-98 | The reported mean confidence is 0 on an empty log. Otherwise, multiplied by the number of entries, it gives the sum of all confidences. |
| DetectionLogger.Recent | backend/app/utils/detection_logger.py:101 | The recent window holds `min(10, n)` entries: the last ones of the log, in insertion order. |
| DetectionLogger.GetStats | backend/app/utils/detection_logger.py:81-109 | The total is the log length. The alert count is the number of alerted entries. Each class's histogram count is the number of entries recording it, and the keys are exactly the classes present. The mean confidence is the one `AverageConfidence` describes. The recent list is the last `min(10, n)` entries. |
| DetectionLogger.HistogramSumsToTotal | backend/app/utils/detection_logger.py:86-92 | The histogram counts of `get_stats` add up to its total. |
| DetectionLogger.ClearedStatsAreZero | backend/app/utils/detection_logger.py:154-160 | Statistics after `clear_logs` are all zeros with an empty histogram and an empty recent list. |
| DetectionLogger.StatsAfterLog | backend/app/utils/detection_logger.py:50-61 | Read after write: logging one detection adds one to the total and one to its class, and leaves other classes unchanged. It adds one to the alert count iff an alert was sent. |
| DetectionLogger.RecentWindowSlides | backend/app/utils/detection_logger.py:101 | Appending an entry puts it at the end of the recent window. Once the window holds 10 entries, its oldest entry drops out. |
| DetectionLogger.AverageConfidenceBounded | backend/app/utils/detection_logger.py:89-98 | When every confidence lies in [0, 1], the mean confidence does too. |
| DetectionLogger.ThreeDetectionsExample | backend/app/utils/detection_logger.py:86-109 | Confidences 0.9, 0.6 and 0.3, two of them alerted, give 3 detections, 2 alerts, mean 0.6, histogram gun 2 and knife 1, and all three as recent. |
| DetectionLogger.GetDetectionsByDate | backend/app/utils/detection_logger.py:148-152 | Every returned entry's timestamp starts with the date string. The result is a subsequence of the log, so log order is kept. |
| DetectionLogger.ByDateSelectsExactly | backend/app/utils/detection_logger.py:148-152 | The answer holds each entry on that date as many times as the log does, and no entry on another date. |
| DetectionLogger.ByDateOfAppend | backend/app/utils/detection_logger.py:148-152 | Querying a concatenation gives the two answers concatenated, so later writes only extend the answer at its end. |
| DetectionLogger.LoggedEntryFoundByDate | backend/app/utils/detection_logger.py:50-61 | After logging an entry, the date query returns the old answer, plus the new entry at the end when its timestamp starts with the date. |
| DetectionLogger.SessionLog | backend/app/utils/detection_logger.py:50-61 | Over one process lifetime the file grows by exactly the logged entries, in call order, after whatever it held at start-up. |
| DetectionLogger.SessionCache | backend/app/utils/detection_logger.py:22-67 | Over one process lifetime every cache key counts only the logged entries, never the ones the file held at start-up. For any key, that is its class count, plus the entry count if it is `total_detections`, plus the alert count if it is `total_alerts_sent`. |
| DetectionLogger.CacheMatchesStatsFromEmpty | backend/app/utils/detection_logger.py:63-67 | Start from an empty or cleared file, and suppose no class is named like a total key. The cached detection and alert totals then equal those of `get_stats`. |

## Left out

- `main.py` is not part of this model: the HTTP and WebSocket endpoints, image decoding, YOLO inference, and the caller rule that alerts and log entries happen only on a detection.
- The real Twilio and Firebase clients and the environment variables read by `_setup_twilio` and `_setup_firebase`. Their outcome is the `Providers` value, and each provider call's outcome is the `Replies` oracle.
- `_generate_alert_message` and the push payload shape. They only format text and play no part in any decision.
- asyncio, `run_in_executor` and any interleaving of concurrent requests. The model is sequential.
- AlertManager.ShouldSendAlert: the clock is whole seconds. The fractional seconds of `total_seconds()` are not modelled.
- File I/O, JSON encoding and decoding, `os.makedirs` and `os.remove`. A line is blank, a parsed record, or malformed. Reading stops at the first unparsable line, which `ReadAll` models. The logger operations work on the entries read. On a file that holds a malformed line, a logged entry is written but never read back, and `LogDetection`'s log does not model that case. `AppendedAfterMalformedIsLost` states what happens there instead.
- The exception paths of `log_detection`, `get_stats` and `clear_logs`. `NoStats` is the all-zero result `get_stats` returns when its counting loop raises, but the failure that leads there is not modelled.
- DetectionLogger.GetStats: the reported `average_confidence` is the exact real mean, not `round(avg_confidence, 3)`; see the next line.
- DetectionLogger.AverageConfidence: the mean confidence is an exact real. It is not rounded to 3 decimals, and Python's floating point is not modelled.
- The order of `detections_by_class`. `dict(by_class)` lists classes in the order they first occur, and that order reaches the JSON response. A Dafny map has no order, so the model gives only the counts.
- Metadata values are modelled as strings. The source allows any JSON value.
- The collision between a class named `total_detections` or `total_alerts_sent` and the cache's total keys is modelled as written in `LogDetection` and `SessionCache`. `CacheMatchesStatsFromEmpty` assumes no such class name.

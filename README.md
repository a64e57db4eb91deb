# Windowed surge detector, modelled in Dafny

This project models the core of a web-traffic surge detector and proves properties of that model. The original is the Python module `utils.py`. It reads log records `(ip, timestamp)` in chronological order and counts them per time unit. Each unit's counts go into a `Pane`: one counter per IP, plus the unit's total.

When a new timestamp arrives, the finished pane is retired into a `Window`. The window holds the last `window_length` panes and evicts the oldest when it is full.

Before a pane is retired, the `AttackDetector` scans it, but only once the window holds at least two panes. The detector is a two-state machine: normal and attack.

- **Normal mode.** The pane's total is compared with the window's mean + 2·sd. Each IP's count is compared with the mean + 2·sd of the newest window pane's per-IP counts. When both tests pass, the detector enters attack mode. It freezes both baselines and appends the offending IPs to a log.
- **Attack mode.** The pane is compared with the frozen baselines. The attack continues, with logging, while both tests pass. Otherwise the detector returns to normal.

The model has five modules, one file each:

- `wrappers.dfy`, module `Wrappers`: `Option`.
- `statistics.dfy`, module `Statistics`: exact arithmetic for the "mean + 2·sd" test.
- `pane.dfy`, module `Panes`: the pane as a value (`PaneState`) and as an object (class `Pane`).
- `window.dfy`, module `Windows`: shifting on sequences, and class `Window`.
- `detector.dfy`, module `Detection`: the detector as a function on states (`CheckIp`, `Scan`, `Process`, `ProcessAll`), and class `AttackDetector`.

Each class method is proved against the value-level functions. Each method's `ensures` relates the new object state to a function of the old state. The lemmas about those functions state what the detector promises.

### How the source is represented

- **The order of a dict.** A Python dict iterates in insertion order. The report lists IPs in that order, so a pane keeps `ipList: map<string, int>` together with `order: seq<string>`, its keys in insertion order. `WellFormed` states the invariant that links them:
  - every key is listed once;
  - every count is at least 1;
  - `nRequests` is the sum of the counts.
- **Exact statistics.** The source computes `mean = Σv / n` and `sd = sqrt(Σ(mean − v)²)` in floating point. The sum of squares is *not* divided by n. The model keeps a mean as an exact fraction instead. `Stats(numer, denom, dev)` stands for `mean = numer / denom` and `sd = sqrt(dev) / denom`, where `dev = Σ(numer − denom·v)²`.
  - The test `v > mean + 2·sd` then becomes `Exceeds`: with `d = denom·v − numer`, it holds exactly when `d > 0 && d² > 4·dev`. No real numbers or square roots are needed.
  - `DevIsScaledSdTemp` proves that `dev` is `denom²` times the source's own `sd_temp`, summed over reals with the real mean (`SdTemp`).
  - `ExceedsIsTwoSigma` proves that `Exceeds` is the scaled comparison `denom·v − numer > 2k` for every real square root `k` of `dev`. `ExceedsIsMeanPlusTwoSd` combines the two: `Exceeds(v, StatsOf(xs))` holds exactly when `v > mean + 2·sd`, where `sd` is the real square root of `sd_temp`. The same is proved for a window (`RequestExceedsIsMeanPlusTwoSd`) and for a pane's per-IP counts (`IpExceedsIsMeanPlusTwoSd`).
- **ZeroDivisionError.** `ip_stats` divides by the number of IPs, and a pane can retire empty: a unit whose only record opened it. So `check_ip_stats` in normal mode can raise ZeroDivisionError while it computes the newest window pane's statistics (utils.py:208). The model keeps this failure:
  - The call sites return a `raised` flag, together with the state left behind at that moment.
  - `RaiseNeedsEmptyPane` characterises exactly when a record makes the detector raise.
  - `ProcessAll` stops at the first raise, as the exception would.
- **Short-circuit `and`.** `check_ip_stats` (and with it the refresh of the per-IP baseline) runs only when the pane's total already exceeds its threshold (utils.py:237, 249).
- **Baselines.** The attack-mode window baseline is `normal_stats`. It does not exist until the first onset, so the model writes it as an `Option<Stats>`. The field `normal_request_stats` (utils.py:153) is never read and is not modelled.

### Two consequences of the code worth knowing

- **Window capacity.** A window whose `window_length` is 0 or less still keeps one pane. Its length is never below `window_length`, so every shift takes the `else` branch. There `pop(0)` on an empty list raises IndexError, which is swallowed, and the `finally` still appends (utils.py:93-101). So `Capacity(windowLength)` is `max(windowLength, 1)`.
- **Standard deviation.** `sd` is the square root of the sum of squared deviations. The sum is not divided by the number of values (utils.py:51-52, 116-117), and the model keeps it undivided.

## Model

| member | source | states |
|---|---|---|
| Statistics.StatsOf | utils.py:42-54 | The exact statistics of a non-empty list: `numer` is the sum of the counts, `denom` their number, and `dev` the sum of `(numer − denom·v)²`, never negative. What this means for the source's floats is proved by `StatsOfMean` and `StatsOfIsSourceStats`. |
| Statistics.SdTemp | utils.py:51 | The source's `sd_temp` over reals: the sum of `(mean − v)²` for a given real mean. It is never negative. |
| Statistics.DevIsScaledSdTemp | utils.py:50-52 | For any real mean `m` with `numer = denom·m`, the integer `Dev` equals `denom²` times `SdTemp` for `m`. |
| Statistics.StatsOfMean | utils.py:45-48 | The mean of `StatsOf(xs)` is the real quotient of the sum of xs by its length, as `numer / denom` computes it. |
| Statistics.StatsOfIsSourceStats | utils.py:42-54 | The `dev` of `StatsOf(xs)` equals `denom²` times the source's `sd_temp` for the mean of xs. |
| Statistics.Exceeds | utils.py:202 | Definition of the test `v > mean + 2·sd` in exact integers. It is used for every such comparison (utils.py:202, 211, 221, 237, 249). Its meaning is proved by `ExceedsIsTwoSigma` and `ExceedsIsMeanPlusTwoSd`. |
| Statistics.ExceedsIsTwoSigma | utils.py:202 | For every real square root `k` of the deviation, `Exceeds` holds exactly when `denom·v − numer > 2k`: this is `v > mean + 2·sd` multiplied through by the count. |
| Statistics.ExceedsIsMeanPlusTwoSdOf | utils.py:202 | For a Stats value whose deviation is `denom²·sq`, and for every real root `sd` of `sq`, `Exceeds` holds exactly when `v > mean + 2·sd` over the reals. |
| Statistics.ExceedsIsMeanPlusTwoSd | utils.py:202 | `Exceeds(v, StatsOf(xs))` holds exactly when `v > mean + 2·sd`, with the real mean of xs and `sd` the non-negative square root of the source's `sd_temp`. |
| Statistics.ExceedsUpwardClosed | utils.py:202 | The threshold test is monotone: every count above an exceeding count also exceeds. |
| Statistics.DevZeroIff | utils.py:51 | The deviation is zero exactly when every value equals the mean. |
| Statistics.ConstantHistoryTripsOnAnyExcess | utils.py:112-117 | Over a history of equal values c, the statistics are mean c with sd 0, and a count exceeds exactly when it is above c. |
| Panes.Updated | utils.py:22-34 | Definition of `update(ip)` on pane values. What it does is proved by `UpdateCounts` and `UpdatePreservesWellFormed`. |
| Panes.Empty | utils.py:16-20 | A new pane is well formed, with no IPs and no requests. |
| Panes.UpdateCounts | utils.py:22-34 | `update(ip)` adds one to ip's count (a new IP starts at 1) and adds ip to the keys. A new IP goes to the end of the insertion order, and an existing one leaves the order as it was. Every other count is unchanged, and the total grows by one. |
| Panes.UpdatePreservesWellFormed | utils.py:22-34 | `update` keeps the pane invariant: keys listed once, counts at least 1, total equal to the sum of the counts. |
| Panes.KeyCount | utils.py:45-47 | In a well-formed pane the loop's `denom` (the length of the key order) is the number of distinct IPs. |
| Panes.IpStatsOf | utils.py:36-54 | The mean is the pane's total over its number of distinct IPs. The deviation is the undivided sum over the pane's counts. It is defined only for a pane with at least one IP. |
| Panes.IpStatsMean | utils.py:45-48 | The mean of a pane's per-IP statistics is `n_requests` over the number of distinct IPs. |
| Panes.IpStatsIsSourceStats | utils.py:50-52 | The deviation of a pane's per-IP statistics equals the count of IPs squared times the source's `sd_temp` over the pane's counts. |
| Panes.IpExceedsIsMeanPlusTwoSd | utils.py:211 | Against a pane's per-IP statistics, `Exceeds` holds exactly when `v > mean + 2·sd`, with `sd` the real root of that pane's `sd_temp`. This is the baseline of the per-IP tests (utils.py:202, 211, 221). |
| Panes.Pane.constructor | utils.py:16-20 | The new object is valid and holds the empty pane for its timestamp. |
| Panes.Pane.Update | utils.py:22-34 | The object stays valid, and its new value is `Updated` of its old value. |
| Panes.Pane.IpStats | utils.py:36-54 | The two loops compute `IpStatsOf` of the pane. `numer` is `n_requests` and `denom` is the number of IPs. |
| Windows.Capacity | utils.py:93-101 | Definition of the bound the shift keeps: `window_length`, or 1 when that is less than 1. `Shifted` and `ShiftAllKeepsLatest` prove that it is the bound. |
| Windows.Shifted | utils.py:85-101 | After a shift the new pane is last, and a window within its capacity stays within it. |
| Windows.ShiftedIsLatest | utils.py:85-101 | One shift leaves the newest `min(n + 1, capacity)` panes of the old window plus the new pane, in order. The oldest pane is evicted only when the window is full. |
| Windows.ShiftAllKeepsLatest | utils.py:85-101 | After any sequence of shifts, the window holds exactly the newest `min(total, capacity)` panes, in arrival order. |
| Windows.HasTimestamp | utils.py:78-83 | Definition of `timestamp in window`: some pane carries the timestamp. `Window.Contains` proves that the loop computes it. |
| Windows.ShiftedContains | utils.py:78-101 | After a shift, the new pane's timestamp is found. Any other timestamp is found exactly when a surviving pane carries it. |
| Windows.ShiftedWellFormed | utils.py:85-101 | Shifting a well-formed pane into a window of well-formed panes keeps every pane well formed. |
| Windows.RequestStatsOf | utils.py:103-119 | The exact statistics of a non-empty window over its per-pane totals: `numer` is the total of all requests, `denom` the number of panes, and `dev` the scaled, undivided squared deviation. What this means for the source's floats is proved by the next three lemmas. |
| Windows.RequestStatsMean | utils.py:112-113 | The window mean is the total of the panes' requests over the number of panes, as a real quotient. |
| Windows.RequestStatsIsSourceStats | utils.py:115-117 | The window deviation equals the number of panes squared times the source's `sd_temp` over the per-pane totals. |
| Windows.RequestExceedsIsMeanPlusTwoSd | utils.py:249 | Against the window statistics, `Exceeds` holds exactly when `v > ave + 2·sd`, with `sd` the real root of the window's `sd_temp`. |
| Windows.Window.constructor | utils.py:68-73 | A new window is valid and holds no panes, with zero cached statistics. |
| Windows.Window.Length | utils.py:75-76 | `len(window)` is the number of panes in the model. |
| Windows.Window.Contains | utils.py:78-83 | The linear scan returns true exactly when some pane carries the timestamp. |
| Windows.Window.ShiftWindow | utils.py:85-101 | The window stays valid, and its panes and their values are `Shifted` of the old ones. |
| Windows.Window.TotalRequests | utils.py:112 | The first loop computes the sum of the panes' totals. |
| Windows.Window.SquaredDeviation | utils.py:116 | The second loop computes the undivided squared deviation of the per-pane totals from the given mean. |
| Windows.Window.GetRequestStats | utils.py:103-119 | It returns `RequestStatsOf` the window and stores it in the cached statistics. Nothing else changes. |
| Detection.Initial | utils.py:141-154 | A fresh detector is consistent, in normal mode, with no panes, no current pane and an empty log. |
| Detection.AnyExceeds | utils.py:201-203 | Definition of what the loops at utils.py:201-203 and 210-212 look for: some IP of the pane whose count exceeds the baseline. `AnyAbove` proves that the early-return loop computes it. |
| Detection.Flagged | utils.py:220-221 | Definition of the IPs `write_ips_to_logs` writes, in key order. `FlaggedMembers`, `FlaggedDistinct` and `FlaggedNonEmpty` prove what it selects. |
| Detection.FlaggedMembers | utils.py:217-223 | An IP is written exactly when it is in the pane and its count exceeds the per-IP baseline. |
| Detection.FlaggedNonEmpty | utils.py:199-223 | Something is written exactly when `check_ip_stats` would find an offending IP. |
| Detection.FlaggedDistinct | utils.py:220-223 | No IP is written twice. |
| Detection.CheckIp | utils.py:187-214 | It keeps the state consistent and changes at most the per-IP baseline. It raises exactly in normal mode when the newest window pane has no IPs. Otherwise it reports whether some IP of the current pane exceeds the baseline it leaves. |
| Detection.CheckIpAttackMode | utils.py:199-203 | In attack mode nothing changes and nothing raises. The verdict uses the frozen per-IP baseline. |
| Detection.CheckIpNormalMode | utils.py:205-212 | In normal mode the per-IP baseline becomes the statistics of the newest window pane, or the call raises when that pane is empty. |
| Detection.Scan | utils.py:227-252 | A scan keeps the state consistent and leaves the window, its length and the current pane unchanged. |
| Detection.ScanAttackMode | utils.py:235-240 | In attack mode nothing raises, and the window statistics and both baselines stay as they were. The attack continues exactly when both thresholds are exceeded. The offending IPs are logged exactly then. |
| Detection.ScanNormalMode | utils.py:241-252 | In normal mode the window statistics are recomputed and cached. A raise happens exactly when the total exceeds and the newest window pane is empty. When the total does not exceed, nothing else changes. Onset happens exactly when both thresholds are exceeded; at onset `normal_stats` is set and the IPs are logged, and otherwise both stay as they were. |
| Detection.Process | utils.py:157-182 | Processing a record keeps the state consistent, keeps the window length and always leaves a current pane. |
| Detection.ProcessCounts | utils.py:181-182 | A record of the current timestamp only counts into the current pane. |
| Detection.KnownTimestampIgnored | utils.py:171 | A record of a timestamp the window already holds changes nothing. |
| Detection.NewUnitRetires | utils.py:171-179 | A record of a new timestamp retires the current pane into the window and leaves an empty pane, without counting itself. With at most one pane in the window there is no scan. |
| Detection.RaiseNeedsEmptyPane | utils.py:208 | A record raises exactly when it opens a new unit with more than one pane in the window, and a normal-mode scan finds the total above the window threshold with the newest window pane empty. |
| Detection.AttackFreezesBaselines | utils.py:235-240 | During an attack, processing never raises and both baselines stay frozen. |
| Detection.ProcessAllAppend | utils.py:157-182 | Processing a stream record by record is a left fold that stops at the first raise. |
| Detection.TallyCounts | utils.py:22-34 | Counting records keeps a pane well formed. Each IP's count grows by its number of records, and the total by all of them. |
| Detection.SameUnitAccumulates | utils.py:166-182 | Records that all carry the current timestamp only accumulate into the current pane. |
| Detection.FirstUnitTally | utils.py:163-182 | From a fresh detector, records of one timestamp all count into the first pane. |
| Detection.RetiredPaneCountsRecords | utils.py:163-182 | From a fresh detector, N records of one timestamp followed by one of another retire a single pane holding N requests, each IP counted once per record, and leave an empty pane with no alert. |
| Detection.AnyAbove | utils.py:201-203 | The early-return loop finds an offending IP exactly when one exists. |
| Detection.AttackDetector.constructor | utils.py:141-154 | A new detector is valid and its state is `Initial`. |
| Detection.AttackDetector.CheckIpStats | utils.py:187-214 | The object follows `CheckIp`: the same new state, verdict and raise. |
| Detection.AttackDetector.IpsToLog | utils.py:217-223 | The loop selects exactly `Flagged`: the offending IPs in insertion order. |
| Detection.AttackDetector.ScanForAttack | utils.py:227-252 | The object follows `Scan`: the same new state and raise. |
| Detection.AttackDetector.ScanAttack | utils.py:235-240 | The attack-mode branch follows `Scan`. |
| Detection.AttackDetector.ScanNormal | utils.py:241-252 | The normal-mode branch follows `Scan`. |
| Detection.AttackDetector.Onset | utils.py:249-252 | At onset, the mode, the frozen window baseline and the log change, and nothing else. |
| Detection.AttackDetector.ProcessData | utils.py:157-182 | The object follows `Process`: the same new state and raise. |
| Detection.AttackDetector.CountRequest | utils.py:182 | Only the current pane changes, and it changes by `Updated`. |
| Detection.AttackDetector.NewTimestamp | utils.py:166-179 | The new-timestamp branch follows `Process`. |
| Detection.AttackDetector.Retire | utils.py:178-179 | The current pane is shifted into the window, and an empty pane for the new timestamp replaces it. |
| Detection.AttackDetector.OpenPane | utils.py:164 | A fresh empty pane for the timestamp becomes the current pane, with `current_timestamp` set to match. |

## Left out

- The log file: `write_ips_to_logs` opens `log_path` and writes one IP per line (utils.py:222-223). The model appends the same IPs, in the same order, to a ghost `alerts` sequence. The `log_path` argument of the constructor is not kept.
- The status `print` in `process_data` (utils.py:176): console output only.
- Floating point and `math.sqrt`: IEEE rounding is not modelled. `ExceedsIsMeanPlusTwoSd`, `RequestExceedsIsMeanPlusTwoSd` and `IpExceedsIsMeanPlusTwoSd` prove that `Exceeds` is the comparison `v > mean + 2·sd` over exact real numbers. Where the floats round, the source's comparison may differ from that exact one, close to the threshold.
- The `isinstance` assert in `shift_window` (utils.py:91): the type of `ShiftWindow`'s parameter makes it hold.
- `normal_request_stats` (utils.py:153): it is assigned and never read.
- Pane.java: a non-compiling duplicate of the Python `Pane`, using float arithmetic. Pane.java is not part of this model.
- Log parsing, tailing and the command-line entry point: they are not in the modelled files. The model's input is a sequence of `Record(ip, timestamp)` values, with timestamps compared only for equality.
- Windows.Window.GetRequestStats: requires a non-empty window, because Python's `numer / len(self)` raises ZeroDivisionError on an empty one. Its only caller, `scan_for_attack`, runs only when the window holds more than one pane (utils.py:174), so the model has no raise path here.
- Panes.Pane.IpStats: requires at least one IP, for the same reason (utils.py:48). The one call site that can reach an empty pane, `check_ip_stats` in normal mode, tests for that case first and reports it as `raised`.
- Detection.AttackDetector.IpsToLog: requires a per-IP baseline to exist. With `normal_ip_stats` still `None`, the source would fail with a TypeError, and no call site reaches that state.

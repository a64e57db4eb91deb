/**
  The surge detector (the source's `AttackDetector`, utils.py:123-252).

  Records (ip, timestamp) arrive in order.  The detector counts them into the
  current pane; when a new timestamp arrives it may scan the current pane for an
  attack, retires it into the window and opens an empty pane for the new
  timestamp (the record that opened it is not counted).  The scan is a
  two-state machine: in normal mode it compares the pane's total with the
  window's mean + 2 sd, in attack mode with the baseline frozen at onset; in
  both modes the per-IP counts must also exceed a per-IP baseline.

  The first half of the module states the detector on values; the class
  AttackDetector at the end is proved to follow it step by step.
 */
module Detection {
  import opened Wrappers
  import opened Statistics
  import opened Panes
  import opened Windows

  /** One log record. */
  datatype Record = Record(ip: string, timestamp: Label)

  /**
    The detector's fields at one moment.  `current` is None until the first
    record; its timestamp is the source's `current_timestamp`.  `alerts` is
    everything `write_ips_to_logs` has appended to the log file so far.
   */
  datatype DetectorState = DetectorState(
    window: seq<PaneState>, windowLength: int, requestStats: Stats,
    current: Option<PaneState>, status: bool,
    normalStats: Option<Stats>, normalIpStats: Option<Stats>,
    alerts: seq<string>)

  /** The state after a call, and whether the call raised ZeroDivisionError (leaving that state behind). */
  datatype Step = Step(state: DetectorState, raised: bool)

  /** The same for `check_ip_stats`, which also returns a verdict. */
  datatype Checked = Checked(state: DetectorState, raised: bool, found: bool)

  /**
    What holds of every reachable state: the panes are well formed, the window
    is within its capacity, and in attack mode both baselines exist; a baseline
    is always a mean over at least one value.
   */
  ghost predicate Consistent(d: DetectorState)
  {
    AllWellFormed(d.window) && |d.window| <= Capacity(d.windowLength)
    && (d.current.Some? ==> WellFormed(d.current.value))
    && (d.status ==> d.normalStats.Some? && d.normalIpStats.Some?)
    && (d.normalStats.Some? ==> d.normalStats.value.denom > 0)
    && (d.normalIpStats.Some? ==> d.normalIpStats.value.denom > 0)
  }

  /** `AttackDetector(window_length, log_path)` (utils.py:141-154). */
  function Initial(windowLength: int): (d: DetectorState)
    ensures Consistent(d) && d.window == [] && d.current == None && !d.status && d.alerts == []
  {
    DetectorState([], windowLength, Stats(0, 1, 0), None, false, None, None, [])
  }

  /** Some IP of the pane made more requests than the baseline's mean + 2 sd. */
  predicate AnyExceeds(p: PaneState, s: Stats)
  {
    exists i :: 0 <= i < |p.order| && Exceeds(Count(p.ipList, p.order[i]), s)
  }

  /** The IPs of ks whose count exceeds the baseline, in the order of ks: what `write_ips_to_logs` writes. */
  function Flagged(ks: seq<string>, m: map<string, int>, s: Stats): seq<string>
  {
    if |ks| == 0 then []
    else Flagged(ks[..|ks| - 1], m, s) + (if Exceeds(Count(m, ks[|ks| - 1]), s) then [ks[|ks| - 1]] else [])
  }

  lemma {:induction false} FlaggedMembers(ks: seq<string>, m: map<string, int>, s: Stats)
    ensures forall k :: k in Flagged(ks, m, s) <==> k in ks && Exceeds(Count(m, k), s)
  {
    if |ks| > 0 {
      var init := ks[..|ks| - 1];
      FlaggedMembers(init, m, s);
      assert ks == init + [ks[|ks| - 1]];
    }
  }

  /** Something is written exactly when `check_ip_stats` would report an offending IP. */
  lemma FlaggedNonEmpty(p: PaneState, s: Stats)
    ensures Flagged(p.order, p.ipList, s) != [] <==> AnyExceeds(p, s)
  {
    FlaggedMembers(p.order, p.ipList, s);
    var f := Flagged(p.order, p.ipList, s);
    if f != [] {
      assert f[0] in f;
      var i :| 0 <= i < |p.order| && p.order[i] == f[0];
    }
    if AnyExceeds(p, s) {
      var i :| 0 <= i < |p.order| && Exceeds(Count(p.ipList, p.order[i]), s);
      assert p.order[i] in f;
    }
  }

  /** Keys listed once are reported at most once. */
  lemma {:induction false} FlaggedDistinct(ks: seq<string>, m: map<string, int>, s: Stats)
    requires Distinct(ks)
    ensures Distinct(Flagged(ks, m, s))
  {
    if |ks| > 0 {
      var init, last := ks[..|ks| - 1], ks[|ks| - 1];
      assert Distinct(init) by {
        forall i, j | 0 <= i < j < |init| ensures init[i] != init[j] {
          assert init[i] == ks[i] && init[j] == ks[j];
        }
      }
      FlaggedDistinct(init, m, s);
      FlaggedMembers(init, m, s);
      var f := Flagged(init, m, s);
      if Exceeds(Count(m, last), s) {
        assert last !in init by {
          forall i | 0 <= i < |init| ensures init[i] != last {
            assert ks[i] != ks[|ks| - 1];
          }
        }
        var g := f + [last];
        forall i, j | 0 <= i < j < |g| ensures g[i] != g[j] {
          if j == |f| {
            assert g[i] in f;
          } else {
            assert g[i] == f[i] && g[j] == f[j];
          }
        }
      } else {
        assert Flagged(ks, m, s) == f;
      }
    }
  }

  /**
    `check_ip_stats` (utils.py:187-214).  In attack mode the frozen per-IP
    baseline is used as it is; in normal mode it is first replaced by the
    statistics of the newest pane of the window, and `ip_stats` raises
    ZeroDivisionError when that pane saw no requests.
   */
  function CheckIp(d: DetectorState): (c: Checked)
    requires Consistent(d) && d.current.Some? && |d.window| > 0
    ensures Consistent(c.state)
    ensures c.raised <==> !d.status && |d.window[|d.window| - 1].ipList| == 0
    ensures c.state == d || c.state == d.(normalIpStats := c.state.normalIpStats)
    ensures !c.raised ==>
      (c.state.normalIpStats.Some? && (c.found <==> AnyExceeds(d.current.value, c.state.normalIpStats.value)))
  {
    var cur := d.current.value;
    if d.status then
      Checked(d, false, AnyExceeds(cur, d.normalIpStats.value))
    else
      var last := d.window[|d.window| - 1];
      if |last.ipList| == 0 then Checked(d, true, false)
      else
        var s := IpStatsOf(last);
        Checked(d.(normalIpStats := Some(s)), false, AnyExceeds(cur, s))
  }

  /** In attack mode `check_ip_stats` changes nothing and never raises; the baseline stays frozen. */
  lemma CheckIpAttackMode(d: DetectorState)
    requires Consistent(d) && d.current.Some? && |d.window| > 0 && d.status
    ensures CheckIp(d) == Checked(d, false, AnyExceeds(d.current.value, d.normalIpStats.value))
  {
  }

  /** In normal mode the per-IP baseline becomes the newest window pane's statistics, or the call raises. */
  lemma CheckIpNormalMode(d: DetectorState)
    requires Consistent(d) && d.current.Some? && |d.window| > 0 && !d.status
    ensures var last := d.window[|d.window| - 1];
      |last.ipList| > 0 ==>
        CheckIp(d) == Checked(d.(normalIpStats := Some(IpStatsOf(last))), false, AnyExceeds(d.current.value, IpStatsOf(last)))
    ensures |d.window[|d.window| - 1].ipList| == 0 ==> CheckIp(d) == Checked(d, true, false)
  {
  }

  /**
    `scan_for_attack` (utils.py:227-252), with `and` short-circuiting:
    `check_ip_stats` runs only when the pane's total already exceeds the threshold.
   */
  function Scan(d: DetectorState): (r: Step)
    requires Consistent(d) && d.current.Some? && |d.window| > 1
    ensures Consistent(r.state)
    ensures r.state.window == d.window && r.state.windowLength == d.windowLength && r.state.current == d.current
  {
    var cur := d.current.value;
    if d.status then
      if Exceeds(cur.nRequests, d.normalStats.value) && CheckIp(d).found then
        Step(d.(alerts := d.alerts + Flagged(cur.order, cur.ipList, d.normalIpStats.value)), false)
      else
        Step(d.(status := false), false)
    else
      var rs := RequestStatsOf(d.window);
      var d1 := d.(requestStats := rs);
      if !Exceeds(cur.nRequests, rs) then Step(d1, false)
      else
        var c := CheckIp(d1);
        if c.raised then Step(c.state, true)
        else if c.found then
          Step(c.state.(status := true, normalStats := Some(rs),
                        alerts := c.state.alerts + Flagged(cur.order, cur.ipList, c.state.normalIpStats.value)), false)
        else Step(c.state, false)
  }

  /**
    Attack mode: nothing raises, the window statistics are not recomputed and
    both baselines stay frozen; the attack continues, with its IPs logged,
    exactly when the pane's total and some IP's count exceed their baselines,
    and otherwise the detector returns to normal.
   */
  lemma ScanAttackMode(d: DetectorState)
    requires Consistent(d) && d.current.Some? && |d.window| > 1 && d.status
    ensures var r, cur := Scan(d), d.current.value;
      !r.raised && r.state.requestStats == d.requestStats
      && r.state.normalStats == d.normalStats && r.state.normalIpStats == d.normalIpStats
      && (r.state.status <==> Exceeds(cur.nRequests, d.normalStats.value) && AnyExceeds(cur, d.normalIpStats.value))
      && r.state.alerts == d.alerts + (if r.state.status then Flagged(cur.order, cur.ipList, d.normalIpStats.value) else [])
  {
    CheckIpAttackMode(d);
  }

  /**
    Normal mode: the window statistics are recomputed and cached; the detector
    enters attack mode exactly when the pane's total exceeds them and some IP's
    count exceeds the newest window pane's per-IP statistics, and only then are
    `normal_stats` set and the IPs logged.  When the total does not exceed,
    `check_ip_stats` does not run, so the per-IP baseline is not refreshed and
    nothing can raise.
   */
  lemma ScanNormalMode(d: DetectorState)
    requires Consistent(d) && d.current.Some? && |d.window| > 1 && !d.status
    ensures var r, cur, rs, last := Scan(d), d.current.value, RequestStatsOf(d.window), d.window[|d.window| - 1];
      r.state.requestStats == rs
      && (r.raised <==> Exceeds(cur.nRequests, rs) && |last.ipList| == 0)
      && (!Exceeds(cur.nRequests, rs) ==> r.state == d.(requestStats := rs))
      && (!r.raised && Exceeds(cur.nRequests, rs) ==> r.state.normalIpStats == Some(IpStatsOf(last)))
      && (!r.raised ==> (r.state.status <==> Exceeds(cur.nRequests, rs) && AnyExceeds(cur, IpStatsOf(last))))
      && (r.state.status ==>
            (r.state.normalStats == Some(rs) && r.state.alerts == d.alerts + Flagged(cur.order, cur.ipList, IpStatsOf(last))))
      && (!r.state.status ==> r.state.normalStats == d.normalStats && r.state.alerts == d.alerts)
  {
    var rs := RequestStatsOf(d.window);
    if Exceeds(d.current.value.nRequests, rs) {
      CheckIpNormalMode(d.(requestStats := rs));
    }
  }

  lemma ScanAttackHolds(d: DetectorState)
    requires Consistent(d) && d.current.Some? && |d.window| > 1 && d.status
    requires Exceeds(d.current.value.nRequests, d.normalStats.value) && AnyExceeds(d.current.value, d.normalIpStats.value)
    ensures Scan(d) == Step(d.(alerts := d.alerts + Flagged(d.current.value.order, d.current.value.ipList, d.normalIpStats.value)), false)
  {
    CheckIpAttackMode(d);
  }

  lemma ScanAttackEnds(d: DetectorState)
    requires Consistent(d) && d.current.Some? && |d.window| > 1 && d.status
    requires !(Exceeds(d.current.value.nRequests, d.normalStats.value) && AnyExceeds(d.current.value, d.normalIpStats.value))
    ensures Scan(d) == Step(d.(status := false), false)
  {
    CheckIpAttackMode(d);
  }

  lemma ScanNormalQuiet(d: DetectorState)
    requires Consistent(d) && d.current.Some? && |d.window| > 1 && !d.status
    requires !Exceeds(d.current.value.nRequests, RequestStatsOf(d.window))
    ensures Scan(d) == Step(d.(requestStats := RequestStatsOf(d.window)), false)
  {
  }

  lemma ScanNormalRaises(d: DetectorState, c: Checked)
    requires Consistent(d) && d.current.Some? && |d.window| > 1 && !d.status
    requires Exceeds(d.current.value.nRequests, RequestStatsOf(d.window))
    requires c == CheckIp(d.(requestStats := RequestStatsOf(d.window))) && c.raised
    ensures Scan(d) == Step(c.state, true)
  {
  }

  lemma ScanNormalOnset(d: DetectorState, c: Checked)
    requires Consistent(d) && d.current.Some? && |d.window| > 1 && !d.status
    requires Exceeds(d.current.value.nRequests, RequestStatsOf(d.window))
    requires c == CheckIp(d.(requestStats := RequestStatsOf(d.window))) && !c.raised && c.found
    ensures c.state.normalIpStats.Some?
    ensures Scan(d) == Step(c.state.(status := true, normalStats := Some(RequestStatsOf(d.window)),
      alerts := c.state.alerts + Flagged(d.current.value.order, d.current.value.ipList, c.state.normalIpStats.value)), false)
  {
  }

  lemma ScanNormalNoOnset(d: DetectorState, c: Checked)
    requires Consistent(d) && d.current.Some? && |d.window| > 1 && !d.status
    requires Exceeds(d.current.value.nRequests, RequestStatsOf(d.window))
    requires c == CheckIp(d.(requestStats := RequestStatsOf(d.window))) && !c.raised && !c.found
    ensures Scan(d) == Step(c.state, false)
  {
  }

  /**
    `process_data` (utils.py:157-182).  The first record creates the current
    pane.  A record of the current timestamp is counted.  A record of a
    timestamp already in the window is ignored.  Any other record retires the
    current pane -- scanning it first when the window holds more than one pane
    -- and opens an empty pane for its timestamp, without counting itself.
    A ZeroDivisionError from the scan propagates before the window shifts.
   */
  function Process(d: DetectorState, r: Record): (s: Step)
    requires Consistent(d)
    ensures Consistent(s.state)
    ensures s.state.windowLength == d.windowLength && s.state.current.Some?
  {
    var d0 := if d.current.None? then d.(current := Some(Empty(r.timestamp))) else d;
    var cur := d0.current.value;
    if r.timestamp == cur.timestamp then
      UpdatePreservesWellFormed(cur, r.ip);
      Step(d0.(current := Some(Updated(cur, r.ip))), false)
    else if HasTimestamp(d0.window, r.timestamp) then
      Step(d0, false)
    else
      var sc := if |d0.window| > 1 then Scan(d0) else Step(d0, false);
      if sc.raised then sc
      else
        ShiftedWellFormed(sc.state.window, d.windowLength, cur);
        Step(sc.state.(window := Shifted(sc.state.window, d.windowLength, cur), current := Some(Empty(r.timestamp))), false)
  }

  /** The first record opens a pane for its own timestamp and is then processed against it. */
  lemma ProcessOpens(d: DetectorState, r: Record)
    requires Consistent(d) && d.current.None?
    ensures Consistent(d.(current := Some(Empty(r.timestamp))))
    ensures Process(d, r) == Process(d.(current := Some(Empty(r.timestamp))), r)
  {
  }

  /** A record of the current timestamp is counted into the current pane. */
  lemma ProcessCounts(d: DetectorState, r: Record)
    requires Consistent(d) && d.current.Some? && r.timestamp == d.current.value.timestamp
    ensures Process(d, r) == Step(d.(current := Some(Updated(d.current.value, r.ip))), false)
  {
  }

  /** Counting a request into the current pane keeps the state Consistent. */
  lemma CountKeepsConsistent(d: DetectorState, ip: string)
    requires Consistent(d) && d.current.Some?
    ensures Consistent(d.(current := Some(Updated(d.current.value, ip))))
  {
    UpdatePreservesWellFormed(d.current.value, ip);
  }

  /** A ZeroDivisionError in the scan leaves the state the scan left, before the window shifts. */
  lemma ProcessScanRaises(d: DetectorState, r: Record)
    requires Consistent(d) && d.current.Some? && r.timestamp != d.current.value.timestamp
    requires !HasTimestamp(d.window, r.timestamp) && |d.window| > 1 && Scan(d).raised
    ensures Process(d, r) == Scan(d)
  {
  }

  /** Otherwise the pane the scan left retires into the window and an empty pane opens. */
  lemma ProcessShifts(d: DetectorState, r: Record, sc: DetectorState)
    requires Consistent(d) && d.current.Some? && r.timestamp != d.current.value.timestamp
    requires !HasTimestamp(d.window, r.timestamp)
    requires if |d.window| > 1 then Scan(d) == Step(sc, false) else sc == d
    ensures sc.current == d.current && sc.windowLength == d.windowLength
    ensures Process(d, r)
      == Step(sc.(window := Shifted(sc.window, d.windowLength, d.current.value), current := Some(Empty(r.timestamp))), false)
  {
  }

  /** Processing records in order, stopping at the first ZeroDivisionError. */
  function ProcessAll(d: DetectorState, rs: seq<Record>): (s: Step)
    requires Consistent(d)
    ensures Consistent(s.state)
    decreases |rs|
  {
    if |rs| == 0 then Step(d, false)
    else
      var s := Process(d, rs[0]);
      if s.raised then s else ProcessAll(s.state, rs[1..])
  }

  lemma {:induction false} ProcessAllAppend(d: DetectorState, rs: seq<Record>, r: Record)
    requires Consistent(d)
    ensures var s := ProcessAll(d, rs);
      ProcessAll(d, rs + [r]) == if s.raised then s else Process(s.state, r)
    decreases |rs|
  {
    if |rs| == 0 {
      assert rs + [r] == [r];
    } else {
      var s := Process(d, rs[0]);
      assert (rs + [r])[0] == rs[0] && (rs + [r])[1..] == rs[1..] + [r];
      if !s.raised {
        ProcessAllAppend(s.state, rs[1..], r);
      }
    }
  }

  /** The current pane after counting rs into it, one `update` per record. */
  function Tally(p: PaneState, rs: seq<Record>): PaneState
    decreases |rs|
  {
    if |rs| == 0 then p else Tally(Updated(p, rs[0].ip), rs[1..])
  }

  /** How many of the records come from ip. */
  function Occurrences(rs: seq<Record>, ip: string): nat
    decreases |rs|
  {
    if |rs| == 0 then 0 else (if rs[0].ip == ip then 1 else 0) + Occurrences(rs[1..], ip)
  }

  /** Counting records keeps the pane well formed; each IP's count grows by its number of records, the total by all of them. */
  lemma {:induction false} TallyCounts(p: PaneState, rs: seq<Record>)
    requires WellFormed(p)
    ensures WellFormed(Tally(p, rs)) && Tally(p, rs).timestamp == p.timestamp
    ensures Tally(p, rs).nRequests == p.nRequests + |rs|
    ensures forall k :: Count(Tally(p, rs).ipList, k) == Count(p.ipList, k) + Occurrences(rs, k)
    decreases |rs|
  {
    if |rs| > 0 {
      var ip, q := rs[0].ip, Updated(p, rs[0].ip);
      UpdatePreservesWellFormed(p, ip);
      UpdateCounts(p, ip);
      TallyCounts(q, rs[1..]);
      assert Tally(p, rs) == Tally(q, rs[1..]);
      forall k ensures Count(Tally(p, rs).ipList, k) == Count(p.ipList, k) + Occurrences(rs, k) {
        assert Occurrences(rs, k) == (if ip == k then 1 else 0) + Occurrences(rs[1..], k);
        assert Count(q.ipList, k) == Count(p.ipList, k) + (if ip == k then 1 else 0);
      }
    }
  }

  /** Records of the current timestamp only count into the current pane; nothing else changes. */
  lemma {:induction false} SameUnitAccumulates(d: DetectorState, rs: seq<Record>)
    requires Consistent(d) && d.current.Some?
    requires forall i :: 0 <= i < |rs| ==> rs[i].timestamp == d.current.value.timestamp
    ensures ProcessAll(d, rs) == Step(d.(current := Some(Tally(d.current.value, rs))), false)
    decreases |rs|
  {
    if |rs| > 0 {
      var cur := d.current.value;
      var d1 := d.(current := Some(Updated(cur, rs[0].ip)));
      assert Process(d, rs[0]) == Step(d1, false);
      UpdatePreservesWellFormed(cur, rs[0].ip);
      assert Updated(cur, rs[0].ip).timestamp == cur.timestamp;
      SameUnitAccumulates(d1, rs[1..]);
      assert d1.(current := Some(Tally(Updated(cur, rs[0].ip), rs[1..]))) == d.(current := Some(Tally(cur, rs)));
    }
  }

  /** A record of a timestamp the window already holds changes nothing. */
  lemma KnownTimestampIgnored(d: DetectorState, r: Record)
    requires Consistent(d) && d.current.Some?
    requires r.timestamp != d.current.value.timestamp && HasTimestamp(d.window, r.timestamp)
    ensures Process(d, r) == Step(d, false)
  {
  }

  /**
    A record of a new timestamp retires the current pane into the window and
    leaves an empty pane for the new timestamp: the record itself is not counted.
    While the window holds at most one pane there is no scan, so the mode, the
    baselines and the log stay as they were.
   */
  lemma NewUnitRetires(d: DetectorState, r: Record)
    requires Consistent(d) && d.current.Some?
    requires r.timestamp != d.current.value.timestamp && !HasTimestamp(d.window, r.timestamp)
    ensures var s := Process(d, r);
      !s.raised ==>
        (s.state.window == Shifted(d.window, d.windowLength, d.current.value)
         && s.state.current == Some(Empty(r.timestamp)) && s.state.current.value.nRequests == 0)
    ensures |d.window| <= 1 ==>
      Process(d, r) == Step(d.(window := Shifted(d.window, d.windowLength, d.current.value), current := Some(Empty(r.timestamp))), false)
  {
  }

  /**
    A record raises exactly when it opens a new unit while the window holds
    more than one pane and a normal-mode scan finds the pane's total above the
    window threshold with the newest window pane empty (the pane left by a unit
    whose only record opened it).
   */
  lemma RaiseNeedsEmptyPane(d: DetectorState, r: Record)
    requires Consistent(d)
    ensures Process(d, r).raised <==>
      d.current.Some? && r.timestamp != d.current.value.timestamp && !HasTimestamp(d.window, r.timestamp)
      && |d.window| > 1 && !d.status
      && Exceeds(d.current.value.nRequests, RequestStatsOf(d.window))
      && |d.window[|d.window| - 1].ipList| == 0
  {
    if d.current.Some? && |d.window| > 1 {
      if d.status {
        ScanAttackMode(d);
      } else {
        ScanNormalMode(d);
      }
    }
  }

  /** During an attack the baselines never change and processing never raises. */
  lemma AttackFreezesBaselines(d: DetectorState, r: Record)
    requires Consistent(d) && d.status
    ensures var s := Process(d, r);
      !s.raised && s.state.normalStats == d.normalStats && s.state.normalIpStats == d.normalIpStats
  {
    if d.current.Some? && |d.window| > 1 {
      ScanAttackMode(d);
    }
  }

  /** From a fresh detector, records of one timestamp all count into the first pane. */
  lemma FirstUnitTally(windowLength: int, rs: seq<Record>)
    requires |rs| > 0 && forall i :: 0 <= i < |rs| ==> rs[i].timestamp == rs[0].timestamp
    ensures ProcessAll(Initial(windowLength), rs)
      == Step(Initial(windowLength).(current := Some(Tally(Empty(rs[0].timestamp), rs))), false)
  {
    var t := rs[0].timestamp;
    var d0 := Initial(windowLength);
    var started := d0.(current := Some(Empty(t)));
    var p1 := Updated(Empty(t), rs[0].ip);
    var d1 := started.(current := Some(p1));
    ProcessOpens(d0, rs[0]);
    ProcessCounts(started, rs[0]);
    CountKeepsConsistent(started, rs[0].ip);
    UpdateCounts(Empty(t), rs[0].ip);
    SameUnitAccumulates(d1, rs[1..]);
  }

  /**
    From a fresh detector, N >= 1 records of one timestamp followed by a record
    of another retire a single pane holding N requests, each IP counted once per
    record, and leave an empty pane for the new timestamp.
   */
  lemma RetiredPaneCountsRecords(windowLength: int, rs: seq<Record>, next: Record)
    requires |rs| > 0 && forall i :: 0 <= i < |rs| ==> rs[i].timestamp == rs[0].timestamp
    requires next.timestamp != rs[0].timestamp
    ensures var s := ProcessAll(Initial(windowLength), rs + [next]);
      !s.raised && |s.state.window| == 1 && s.state.current == Some(Empty(next.timestamp))
      && s.state.window[0].timestamp == rs[0].timestamp && s.state.window[0].nRequests == |rs|
      && (forall k :: Count(s.state.window[0].ipList, k) == Occurrences(rs, k))
      && !s.state.status && s.state.alerts == []
  {
    var t := rs[0].timestamp;
    var p := Tally(Empty(t), rs);
    var d2 := Initial(windowLength).(current := Some(p));
    FirstUnitTally(windowLength, rs);
    TallyCounts(Empty(t), rs);
    ProcessAllAppend(Initial(windowLength), rs, next);
    NewUnitRetires(d2, next);
    assert Shifted(d2.window, windowLength, p) == [p];
  }

  /** The loop of `check_ip_stats` (utils.py:201-203, 210-212): is some IP of the pane above the baseline? */
  method AnyAbove(p: Pane, s: Stats) returns (found: bool)
    requires p.Valid()
    ensures found == AnyExceeds(p.Model(), s)
  {
    OrderedKeys(p.Model());
    var i := 0;
    while i < |p.order|
      invariant 0 <= i <= |p.order|
      invariant forall j :: 0 <= j < i ==> !Exceeds(Count(p.ipList, p.order[j]), s)
    {
      var v := p.ipList[p.order[i]];
      if Exceeds(v, s) {
        return true;
      }
      i := i + 1;
    }
    return false;
  }

  /** The detector object; the window, the current pane and the baselines change in place. */
  class AttackDetector {
    const window: Window
    var currentPane: Pane?
    var currentTimestamp: Option<Label>
    var status: bool
    var normalStats: Option<Stats>
    var normalIpStats: Option<Stats>
    /** The lines `write_ips_to_logs` has appended to the log file. */
    ghost var alerts: seq<string>

    ghost function Model(): DetectorState
      reads this, window, window.panes, currentPane
    {
      DetectorState(window.Model(), window.windowLength, window.requestStats,
        if currentPane == null then None else Some(currentPane.Model()),
        status, normalStats, normalIpStats, alerts)
    }

    /**
      The current pane is not one of the window's panes (so counting into it
      leaves the window alone), `current_timestamp` is its timestamp, and the
      state is Consistent.
     */
    ghost predicate Valid()
      reads this, window, window.panes, currentPane
    {
      window.Valid()
      && (currentPane != null ==> currentPane.Valid() && currentPane !in window.panes)
      && currentTimestamp == (if currentPane == null then None else Some(currentPane.timestamp))
      && Consistent(Model())
    }

    /** `AttackDetector(window_length, log_path)` (utils.py:141-154); the log path is not modelled. */
    constructor (windowLength: int)
      ensures Valid() && Model() == Initial(windowLength)
    {
      window := new Window(windowLength);
      currentPane := null;
      currentTimestamp := None;
      status := false;
      normalStats := None;
      normalIpStats := None;
      alerts := [];
    }

    /** `check_ip_stats` (utils.py:187-214); `raised` stands for the ZeroDivisionError of `ip_stats` on an empty pane. */
    method CheckIpStats() returns (found: bool, raised: bool)
      requires Valid() && currentPane != null && |window.panes| > 0
      modifies this`normalIpStats
      ensures Valid()
      ensures CheckIp(old(Model())) == Checked(Model(), raised, found)
    {
      window.PanesValid();
      if status {
        found := AnyAbove(currentPane, normalIpStats.value);
        raised := false;
      } else {
        var last := window.panes[|window.panes| - 1];
        if |last.ipList| == 0 {
          return false, true;
        }
        var s := last.IpStats();
        normalIpStats := Some(s);
        found := AnyAbove(currentPane, s);
        raised := false;
      }
    }

    /** `write_ips_to_logs` (utils.py:217-223) without the file: the IPs it writes, in order. */
    method IpsToLog() returns (ips: seq<string>)
      requires currentPane != null && currentPane.Valid() && normalIpStats.Some?
      ensures ips == Flagged(currentPane.order, currentPane.ipList, normalIpStats.value)
    {
      OrderedKeys(currentPane.Model());
      var s := normalIpStats.value;
      ips := [];
      var i := 0;
      while i < |currentPane.order|
        invariant 0 <= i <= |currentPane.order|
        invariant ips == Flagged(currentPane.order[..i], currentPane.ipList, s)
      {
        var ip := currentPane.order[i];
        assert currentPane.order[..i + 1][..i] == currentPane.order[..i];
        if Exceeds(currentPane.ipList[ip], s) {
          ips := ips + [ip];
        }
        i := i + 1;
      }
      assert currentPane.order[..i] == currentPane.order;
    }

    /** `scan_for_attack` (utils.py:227-252). */
    method ScanForAttack() returns (raised: bool)
      requires Valid() && currentPane != null && |window.panes| > 1
      modifies this`status, this`normalStats, this`normalIpStats, this`alerts, window`requestStats
      ensures Valid()
      ensures Scan(old(Model())) == Step(Model(), raised)
    {
      if status {
        raised := ScanAttack();
      } else {
        raised := ScanNormal();
      }
    }

    /** The attack-mode branch of `scan_for_attack` (utils.py:235-240). */
    method ScanAttack() returns (raised: bool)
      requires Valid() && currentPane != null && |window.panes| > 1 && status
      modifies this`status, this`normalIpStats, this`alerts
      ensures Valid()
      ensures Scan(old(Model())) == Step(Model(), raised)
    {
      ghost var d := Model();
      raised := false;
      var found := false;
      if Exceeds(currentPane.nRequests, normalStats.value) {
        found, raised := CheckIpStats();
        CheckIpAttackMode(d);
        assert Model() == d;
      }
      if found {
        var ips := IpsToLog();
        alerts := alerts + ips;
        assert Model() == d.(alerts := d.alerts + ips);
        ScanAttackHolds(d);
      } else {
        status := false;
        assert Model() == d.(status := false);
        ScanAttackEnds(d);
      }
    }

    /** The normal-mode branch of `scan_for_attack` (utils.py:241-252). */
    method ScanNormal() returns (raised: bool)
      requires Valid() && currentPane != null && |window.panes| > 1 && !status
      modifies this`status, this`normalStats, this`normalIpStats, this`alerts, window`requestStats
      ensures Valid()
      ensures Scan(old(Model())) == Step(Model(), raised)
    {
      ghost var d := Model();
      raised := false;
      var rs := window.GetRequestStats();
      assert Model() == d.(requestStats := rs);
      if Exceeds(currentPane.nRequests, rs) {
        var found;
        found, raised := CheckIpStats();
        ghost var c := Checked(Model(), raised, found);
        if raised {
          ScanNormalRaises(d, c);
        } else if found {
          ScanNormalOnset(d, c);
          Onset(rs);
        } else {
          ScanNormalNoOnset(d, c);
        }
      } else {
        ScanNormalQuiet(d);
      }
    }

    /** Entering attack mode (utils.py:249-252): freeze the window baseline and log the offending IPs. */
    method Onset(rs: Stats)
      requires Valid() && currentPane != null && normalIpStats.Some? && rs.denom > 0
      modifies this`status, this`normalStats, this`alerts
      ensures Valid()
      ensures Model() == old(Model()).(status := true, normalStats := Some(rs),
        alerts := old(Model()).alerts + Flagged(currentPane.order, currentPane.ipList, normalIpStats.value))
    {
      ghost var d := Model();
      status := true;
      normalStats := Some(rs);
      var ips := IpsToLog();
      alerts := alerts + ips;
      assert Model() == d.(status := true, normalStats := Some(rs), alerts := d.alerts + ips);
    }

    /** `process_data` (utils.py:157-182); `raised` reports a ZeroDivisionError from the scan. */
    method ProcessData(ip: string, timestamp: Label) returns (raised: bool)
      requires Valid()
      modifies this`currentPane, this`currentTimestamp, this`status, this`normalStats, this`normalIpStats, this`alerts
      modifies window`panes, window`requestStats, currentPane
      ensures Valid()
      ensures Process(old(Model()), Record(ip, timestamp)) == Step(Model(), raised)
    {
      ghost var d := Model();
      if currentPane == null {
        OpenPane(timestamp);
        ProcessOpens(d, Record(ip, timestamp));
      }
      if Some(timestamp) != currentTimestamp {
        raised := NewTimestamp(ip, timestamp);
      } else {
        ProcessCounts(Model(), Record(ip, timestamp));
        CountRequest(ip);
        raised := false;
      }
    }

    /** `self.current_pane.update(ip)` (utils.py:182): only the current pane changes. */
    method CountRequest(ip: string)
      requires Valid() && currentPane != null
      modifies currentPane
      ensures Valid()
      ensures Model() == old(Model()).(current := Some(Updated(old(currentPane.Model()), ip)))
    {
      ghost var d, ps := Model(), window.panes;
      CountKeepsConsistent(d, ip);
      currentPane.Update(ip);
      StatesUnchanged(ps);
      assert window.Model() == d.window;
      assert Model() == d.(current := Some(Updated(d.current.value, ip)));
    }

    /** `self.current_timestamp, self.current_pane = timestamp, Pane(timestamp)` (utils.py:164, 179). */
    method OpenPane(timestamp: Label)
      requires window.Valid() && Consistent(Model())
      modifies this`currentPane, this`currentTimestamp
      ensures fresh(currentPane) && currentPane != null
      ensures Valid() && Model() == old(Model()).(current := Some(Empty(timestamp)))
    {
      ghost var d := Model();
      var p := new Pane(timestamp);
      assert window.Model() == d.window;
      currentTimestamp := Some(timestamp);
      currentPane := p;
      assert Model() == d.(current := Some(Empty(timestamp)));
    }

    /** The branch of `process_data` for a timestamp other than the current one (utils.py:166-179). */
    method NewTimestamp(ip: string, timestamp: Label) returns (raised: bool)
      requires Valid() && currentPane != null && timestamp != currentPane.timestamp
      modifies this`currentPane, this`currentTimestamp, this`status, this`normalStats, this`normalIpStats, this`alerts
      modifies window`panes, window`requestStats
      ensures Valid()
      ensures Process(old(Model()), Record(ip, timestamp)) == Step(Model(), raised)
    {
      ghost var d := Model();
      var r := Record(ip, timestamp);
      var known := window.Contains(timestamp);
      if known {
        KnownTimestampIgnored(d, r);
        return false;
      }
      raised := false;
      if window.Length() > 1 {
        raised := ScanForAttack();
        if raised {
          ProcessScanRaises(d, r);
          return;
        }
      }
      ProcessShifts(d, r, Model());
      Retire(timestamp);
    }

    /** Retire the current pane into the window and open an empty one (utils.py:178-179). */
    method Retire(timestamp: Label)
      requires Valid() && currentPane != null
      modifies this`currentPane, this`currentTimestamp, window`panes
      ensures Valid()
      ensures Model() == old(Model()).(window := Shifted(old(Model()).window, window.windowLength, old(currentPane.Model())),
                                       current := Some(Empty(timestamp)))
    {
      ghost var d := Model();
      window.ShiftWindow(currentPane);
      assert Model() == d.(window := Shifted(d.window, d.windowLength, d.current.value));
      OpenPane(timestamp);
    }
  }
}

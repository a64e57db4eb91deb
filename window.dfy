/**
  The history window (the source's `Window`, utils.py:58-119): a bounded FIFO
  list of retired panes, oldest first, and the mean and sd of their totals.
 */
module Windows {
  import opened Statistics
  import opened Panes

  /**
    The most panes a window holds.  `shift_window` evicts only when the window is
    at least `window_length` long and then appends, so a length <= 0 still keeps one pane.
   */
  function Capacity(windowLength: int): int
  {
    if windowLength < 1 then 1 else windowLength
  }

  function Min(a: int, b: int): int
  {
    if a < b then a else b
  }

  /** `shift_window` on values (utils.py:85-101); `pop(0)` on an empty list is swallowed. */
  function Shifted<T>(panes: seq<T>, windowLength: int, p: T): (r: seq<T>)
    ensures |r| > 0 && r[|r| - 1] == p
    ensures |panes| <= Capacity(windowLength) ==> |r| <= Capacity(windowLength)
  {
    if |panes| < windowLength then panes + [p]
    else (if |panes| == 0 then [] else panes[1..]) + [p]
  }

  /** The window after shifting in each of ps in turn. */
  function ShiftAll<T>(panes: seq<T>, windowLength: int, ps: seq<T>): seq<T>
    decreases |ps|
  {
    if |ps| == 0 then panes else ShiftAll(Shifted(panes, windowLength, ps[0]), windowLength, ps[1..])
  }

  /** One shift leaves the newest Min(n + 1, capacity) of the panes seen so far. */
  lemma ShiftedIsLatest<T>(panes: seq<T>, windowLength: int, p: T)
    requires |panes| <= Capacity(windowLength)
    ensures var all := panes + [p];
      Shifted(panes, windowLength, p) == all[|all| - Min(|all|, Capacity(windowLength))..]
  {
    var all := panes + [p];
    if |panes| >= windowLength && |panes| > 0 {
      assert panes[1..] + [p] == all[1..];
    }
  }

  /** Appending the same tail to a suffix of a and to a keeps their newest n elements equal. */
  lemma SuffixAppend<T>(a: seq<T>, x: seq<T>, b: seq<T>, n: int)
    requires |x| <= |a| && x == a[|a| - |x|..]
    requires 0 <= n <= |x| + |b|
    ensures (x + b)[|x| + |b| - n..] == (a + b)[|a| + |b| - n..]
  {
    var l, r := (x + b)[|x| + |b| - n..], (a + b)[|a| + |b| - n..];
    forall i | 0 <= i < n ensures l[i] == r[i] {
      var j := |x| + |b| - n + i;
      if j < |x| {
        assert l[i] == x[j] == a[|a| - |x| + j];
      } else {
        assert l[i] == b[j - |x|];
      }
    }
  }

  lemma ConsAppend<T>(a: seq<T>, ps: seq<T>)
    requires |ps| > 0
    ensures a + ps == (a + [ps[0]]) + ps[1..]
  {
    assert ps == [ps[0]] + ps[1..];
  }

  lemma MinAbsorb(x: int, r: int, cap: int)
    requires 0 <= r
    ensures Min(Min(x, cap) + r, cap) == Min(x + r, cap)
  {
  }

  /**
    Starting within its capacity, a window that has been shifted with ps holds
    exactly the newest Min(total, capacity) panes, in arrival order.
   */
  lemma {:induction false} ShiftAllKeepsLatest<T>(panes: seq<T>, windowLength: int, ps: seq<T>)
    requires |panes| <= Capacity(windowLength)
    ensures var all := panes + ps;
      ShiftAll(panes, windowLength, ps) == all[|all| - Min(|all|, Capacity(windowLength))..]
    decreases |ps|
  {
    var cap := Capacity(windowLength);
    if |ps| == 0 {
      assert panes + ps == panes;
    } else {
      var p, rest := ps[0], ps[1..];
      var a, next := panes + [p], Shifted(panes, windowLength, p);
      ShiftedIsLatest(panes, windowLength, p);
      assert |next| == Min(|a|, cap);
      ShiftAllKeepsLatest(next, windowLength, rest);
      MinAbsorb(|a|, |rest|, cap);
      var n := Min(|a| + |rest|, cap);
      SuffixAppend(a, next, rest, n);
      ConsAppend(panes, ps);
      assert ShiftAll(panes, windowLength, ps) == ShiftAll(next, windowLength, rest);
      assert ShiftAll(next, windowLength, rest) == (next + rest)[|next| + |rest| - n..];
      assert (next + rest)[|next| + |rest| - n..] == (a + rest)[|a| + |rest| - n..];
    }
  }

  /** `__contains__` (utils.py:78-83): some pane carries the timestamp. */
  predicate HasTimestamp(ps: seq<PaneState>, timestamp: Label)
  {
    exists i :: 0 <= i < |ps| && ps[i].timestamp == timestamp
  }

  /** The pane just shifted in is found by timestamp, and so is every pane that survived. */
  lemma ShiftedContains(panes: seq<PaneState>, windowLength: int, p: PaneState, timestamp: Label)
    ensures HasTimestamp(Shifted(panes, windowLength, p), p.timestamp)
    ensures HasTimestamp(Shifted(panes, windowLength, p), timestamp) <==>
      timestamp == p.timestamp
      || (|panes| < windowLength && HasTimestamp(panes, timestamp))
      || (|panes| >= windowLength && HasTimestamp(if |panes| == 0 then [] else panes[1..], timestamp))
  {
    var r := Shifted(panes, windowLength, p);
    assert r[|r| - 1] == p;
    var kept := if |panes| < windowLength then panes else if |panes| == 0 then [] else panes[1..];
    assert r == kept + [p];
    if HasTimestamp(kept, timestamp) {
      var i :| 0 <= i < |kept| && kept[i].timestamp == timestamp;
      assert r[i] == kept[i];
    }
    if HasTimestamp(r, timestamp) && timestamp != p.timestamp {
      var i :| 0 <= i < |r| && r[i].timestamp == timestamp;
      assert kept[i] == r[i];
    }
  }

  ghost predicate AllWellFormed(ps: seq<PaneState>)
  {
    forall i :: 0 <= i < |ps| ==> WellFormed(ps[i])
  }

  /** Shifting a well-formed pane into a window of well-formed panes keeps every pane well-formed. */
  lemma ShiftedWellFormed(panes: seq<PaneState>, windowLength: int, p: PaneState)
    requires AllWellFormed(panes) && WellFormed(p)
    ensures AllWellFormed(Shifted(panes, windowLength, p))
  {
    var r := Shifted(panes, windowLength, p);
    var kept := if |panes| < windowLength then panes else if |panes| == 0 then [] else panes[1..];
    assert r == kept + [p];
    forall i | 0 <= i < |r| ensures WellFormed(r[i]) {
      if i < |kept| {
        assert r[i] == kept[i];
      }
    }
  }

  /** The request totals of the panes, oldest first. */
  function Totals(ps: seq<PaneState>): (r: seq<int>)
    ensures |r| == |ps|
  {
    if |ps| == 0 then [] else Totals(ps[..|ps| - 1]) + [ps[|ps| - 1].nRequests]
  }

  lemma TotalsSnoc(ps: seq<PaneState>, i: int)
    requires 0 <= i < |ps|
    ensures Totals(ps[..i + 1]) == Totals(ps[..i]) + [ps[i].nRequests]
  {
    assert ps[..i + 1][..i] == ps[..i];
  }

  /**
    `get_request_stats` on values (utils.py:103-119): mean = total requests over
    all panes / number of panes, sd = sqrt of the undivided squared deviations.
   */
  function RequestStatsOf(ps: seq<PaneState>): (s: Stats)
    requires |ps| > 0
    ensures s.numer == Sum(Totals(ps)) && s.denom == |ps|
    ensures s.dev == Dev(Totals(ps), s.numer, s.denom)
  {
    StatsOf(Totals(ps))
  }

  /** The mean of RequestStatsOf(ps) is the source's mean: total requests over the number of panes. */
  lemma RequestStatsMean(ps: seq<PaneState>)
    requires |ps| > 0
    ensures Mean(RequestStatsOf(ps)) == Sum(Totals(ps)) as real / |ps| as real
  {
  }

  /**
    The dev of RequestStatsOf(ps) is the source's sd_temp of the pane totals
    for their mean, times the number of panes squared.
   */
  lemma RequestStatsIsSourceStats(ps: seq<PaneState>)
    requires |ps| > 0
    ensures ScaledBy(RequestStatsOf(ps).dev, RequestStatsOf(ps).denom, SdTemp(Totals(ps), Mean(RequestStatsOf(ps))))
  {
    MeanTimesCount(RequestStatsOf(ps));
    DevIsScaledSdTemp(Totals(ps), RequestStatsOf(ps).numer, RequestStatsOf(ps).denom, Mean(RequestStatsOf(ps)));
  }

  /**
    The window's tests at utils.py:237 and 249 in real numbers: a count trips them exactly
    when it is above the mean of the pane totals plus twice sd, the square root
    of their undivided squared deviation from that mean.
   */
  lemma RequestExceedsIsMeanPlusTwoSd(ps: seq<PaneState>, s: Stats, v: int, sd: real)
    requires |ps| > 0 && s == RequestStatsOf(ps)
    requires IsSqrt(sd, SdTemp(Totals(ps), Mean(s)))
    ensures Exceeds(v, s) <==> v as real > Mean(s) + 2.0 * sd
  {
    RequestStatsIsSourceStats(ps);
    ExceedsIsMeanPlusTwoSdOf(v, s, sd, SdTemp(Totals(ps), Mean(s)));
  }

  /** The values of a sequence of pane objects. */
  function States(ps: seq<Pane>): (r: seq<PaneState>)
    reads ps
    ensures |r| == |ps|
  {
    if |ps| == 0 then [] else States(ps[..|ps| - 1]) + [ps[|ps| - 1].Model()]
  }

  lemma {:induction false} StatesAt(ps: seq<Pane>)
    ensures forall i :: 0 <= i < |ps| ==> States(ps)[i] == ps[i].Model()
  {
    if |ps| > 0 {
      StatesAt(ps[..|ps| - 1]);
    }
  }

  lemma {:induction false} TotalsAt(ps: seq<PaneState>)
    ensures forall i :: 0 <= i < |ps| ==> Totals(ps)[i] == ps[i].nRequests
  {
    if |ps| > 0 {
      TotalsAt(ps[..|ps| - 1]);
    }
  }

  /** The totals of a window's panes, read off the pane objects. */
  lemma PaneTotals(ps: seq<Pane>)
    ensures forall i :: 0 <= i < |ps| ==> Totals(States(ps))[i] == ps[i].nRequests
  {
    StatesAt(ps);
    TotalsAt(States(ps));
  }

  /** The values of pane objects none of which changed are the values they had. */
  twostate lemma StatesUnchanged(ps: seq<Pane>)
    requires forall i :: 0 <= i < |ps| ==> unchanged(ps[i])
    ensures States(ps) == old(States(ps))
  {
  }

  lemma StatesSnoc(ps: seq<Pane>, q: Pane)
    ensures States(ps + [q]) == States(ps) + [q.Model()]
  {
    assert (ps + [q])[..|ps|] == ps;
  }

  lemma StatesDrop(ps: seq<Pane>)
    requires |ps| > 0
    ensures States(ps[1..]) == States(ps)[1..]
  {
    StatesAt(ps);
    StatesAt(ps[1..]);
  }

  /** The window object: `panes` and the cached statistics change in place. */
  class Window {
    const windowLength: int
    var panes: seq<Pane>
    /** The source's `ave_requests` and `sd_requests`, kept as one Stats value. */
    var requestStats: Stats

    function Model(): seq<PaneState>
      reads this`panes, panes
    {
      States(panes)
    }

    ghost predicate Valid()
      reads this`panes, panes
    {
      AllWellFormed(Model()) && |panes| <= Capacity(windowLength)
    }

    /** `len(window)` (utils.py:75-76): the number of panes held. */
    function Length(): (n: nat)
      reads this`panes, panes
      ensures n == |Model()|
    {
      |panes|
    }

    /** Every pane object of a valid window is valid, and the model lists their values. */
    lemma PanesValid()
      requires Valid()
      ensures forall i :: 0 <= i < |panes| ==> panes[i].Valid() && Model()[i] == panes[i].Model()
    {
      StatesAt(panes);
    }

    /** `Window(window_length)` (utils.py:68-73): no panes, both statistics 0. */
    constructor (windowLength: int)
      ensures Valid() && this.windowLength == windowLength
      ensures panes == [] && requestStats == Stats(0, 1, 0)
    {
      this.windowLength := windowLength;
      panes := [];
      requestStats := Stats(0, 1, 0);
    }

    /** `timestamp in window` (utils.py:78-83), a linear scan comparing timestamps. */
    method Contains(timestamp: Label) returns (found: bool)
      ensures found == HasTimestamp(Model(), timestamp)
    {
      StatesAt(panes);
      var i := 0;
      while i < |panes|
        invariant 0 <= i <= |panes|
        invariant forall j :: 0 <= j < i ==> Model()[j].timestamp != timestamp
      {
        if panes[i].timestamp == timestamp {
          assert Model()[i].timestamp == timestamp;
          return true;
        }
        i := i + 1;
      }
      return false;
    }

    /** `shift_window` (utils.py:85-101). */
    method ShiftWindow(newPane: Pane)
      requires Valid() && newPane.Valid()
      modifies this`panes
      ensures Valid()
      ensures panes == Shifted(old(panes), windowLength, newPane)
      ensures Model() == Shifted(old(Model()), windowLength, newPane.Model())
    {
      ghost var before, was := Model(), panes;
      if |panes| < windowLength {
        panes := panes + [newPane];
        StatesSnoc(was, newPane);
      } else {
        if |panes| > 0 {
          panes := panes[1..];
          StatesDrop(was);
        }
        ghost var kept := panes;
        panes := panes + [newPane];
        StatesSnoc(kept, newPane);
      }
      assert Model() == Shifted(before, windowLength, newPane.Model());
      ShiftedWellFormed(before, windowLength, newPane.Model());
    }

    /** The first loop of `get_request_stats` (utils.py:112): the total number of requests in the window. */
    method TotalRequests() returns (numer: int)
      ensures numer == Sum(Totals(Model()))
    {
      ghost var ts := Totals(Model());
      PaneTotals(panes);
      numer := 0;
      var i := 0;
      while i < |panes|
        invariant 0 <= i <= |panes|
        invariant numer == Sum(ts[..i])
      {
        SumStep(ts, i);
        numer := numer + panes[i].nRequests;
        i := i + 1;
      }
      assert ts[..i] == ts;
    }

    /** The second loop of `get_request_stats` (utils.py:116): squared deviations from the mean numer / denom. */
    method SquaredDeviation(numer: int, denom: int) returns (sdTemp: int)
      ensures sdTemp == Dev(Totals(Model()), numer, denom)
    {
      ghost var ts := Totals(Model());
      PaneTotals(panes);
      sdTemp := 0;
      var i := 0;
      while i < |panes|
        invariant 0 <= i <= |panes|
        invariant sdTemp == Dev(ts[..i], numer, denom)
      {
        DevStep(ts, i, numer, denom);
        sdTemp := sdTemp + Square(Gap(numer, denom, panes[i].nRequests));
        i := i + 1;
      }
      assert ts[..i] == ts;
    }

    /**
      `get_request_stats` (utils.py:103-119): the mean is stored before the
      second loop reads it back; caches and returns the result.  Python divides
      by `len(self)`, so an empty window raises ZeroDivisionError: hence the precondition.
     */
    method GetRequestStats() returns (s: Stats)
      requires |panes| > 0
      modifies this`requestStats
      ensures s == RequestStatsOf(Model())
      ensures requestStats == s
    {
      var numer := TotalRequests();
      requestStats := requestStats.(numer := numer, denom := |panes|);
      var sdTemp := SquaredDeviation(requestStats.numer, requestStats.denom);
      requestStats := requestStats.(dev := sdTemp);
      s := requestStats;
    }
  }
}

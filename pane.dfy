/**
  One time unit's counters (the source's `Pane`, utils.py:3-54): a dictionary from
  IP address to the number of requests it made in the unit, and the running total.

  A Python dict iterates in insertion order, and the detector's loops depend on
  that order (the report lists IPs in it), so the model keeps the keys in
  insertion order in `order` beside the map `ipList`.
 */
module Panes {
  import opened Statistics

  /** Time-unit labels are compared only for equality. */
  type Label = string

  /** The value of a pane: what its fields hold at one moment. */
  datatype PaneState = PaneState(timestamp: Label, order: seq<string>, ipList: map<string, int>, nRequests: int)

  /** The count a pane holds for k; a key it never saw has made no requests. */
  function Count(m: map<string, int>, k: string): int
  {
    if k in m then m[k] else 0
  }

  /** The counts of the keys ks, in the order of ks. */
  function Counts(ks: seq<string>, m: map<string, int>): (cs: seq<int>)
    ensures |cs| == |ks|
  {
    if |ks| == 0 then [] else Counts(ks[..|ks| - 1], m) + [Count(m, ks[|ks| - 1])]
  }

  lemma {:induction false} CountsAt(ks: seq<string>, m: map<string, int>)
    ensures forall i :: 0 <= i < |ks| ==> Counts(ks, m)[i] == Count(m, ks[i])
  {
    if |ks| > 0 {
      CountsAt(ks[..|ks| - 1], m);
    }
  }

  /** Counts of a prefix one key longer: the counts of the prefix, then that key's count. */
  lemma CountsSnoc(ks: seq<string>, m: map<string, int>, i: int)
    requires 0 <= i < |ks|
    ensures Counts(ks[..i + 1], m) == Counts(ks[..i], m) + [Count(m, ks[i])]
  {
    assert ks[..i + 1][..i] == ks[..i];
  }

  /**
    The invariant every pane keeps: `order` lists each key of `ipList` once,
    every count is at least 1, and `nRequests` is the sum of the counts.
   */
  ghost predicate WellFormed(p: PaneState)
  {
    Distinct(p.order) && p.ipList.Keys == KeySet(p.order)
    && (forall k :: k in p.ipList ==> p.ipList[k] >= 1)
    && p.nRequests == Sum(Counts(p.order, p.ipList))
  }

  ghost predicate Distinct(ks: seq<string>)
  {
    forall i, j :: 0 <= i < j < |ks| ==> ks[i] != ks[j]
  }

  /** The keys ks lists. */
  function KeySet(ks: seq<string>): set<string>
  {
    if |ks| == 0 then {} else KeySet(ks[..|ks| - 1]) + {ks[|ks| - 1]}
  }

  lemma {:induction false} KeySetMembers(ks: seq<string>)
    ensures forall k :: k in KeySet(ks) <==> k in ks
  {
    if |ks| > 0 {
      var init := ks[..|ks| - 1];
      KeySetMembers(init);
      assert ks == init + [ks[|ks| - 1]];
    }
  }

  /** The pane `Pane(timestamp)` creates (utils.py:16-20). */
  function Empty(timestamp: Label): (p: PaneState)
    ensures WellFormed(p) && p.timestamp == timestamp && p.ipList == map[] && p.nRequests == 0
  {
    PaneState(timestamp, [], map[], 0)
  }

  /** The pane after `update(ip)` (utils.py:22-34). */
  function Updated(p: PaneState, ip: string): PaneState
  {
    if ip in p.ipList then
      p.(ipList := p.ipList[ip := p.ipList[ip] + 1], nRequests := p.nRequests + 1)
    else
      p.(order := p.order + [ip], ipList := p.ipList[ip := 1], nRequests := p.nRequests + 1)
  }

  /**
    `update(ip)` adds one to ip's count (a new IP starts at 1), leaves every
    other count alone, adds one to the total and lists a new IP last.
   */
  lemma UpdateCounts(p: PaneState, ip: string)
    ensures var q := Updated(p, ip);
      q.timestamp == p.timestamp && q.nRequests == p.nRequests + 1
      && q.ipList.Keys == p.ipList.Keys + {ip}
      && q.order == (if ip in p.ipList then p.order else p.order + [ip])
      && Count(q.ipList, ip) == Count(p.ipList, ip) + 1
      && forall k :: k != ip ==> Count(q.ipList, k) == Count(p.ipList, k)
  {
  }

  /** Changing the count of a key that ks does not list leaves the counts of ks alone. */
  lemma CountsFrame(ks: seq<string>, m: map<string, int>, k: string, v: int)
    requires k !in ks
    ensures Counts(ks, m[k := v]) == Counts(ks, m)
  {
    CountsAt(ks, m[k := v]);
    CountsAt(ks, m);
  }

  /** Adding one to the count of a key that ks lists exactly once adds one to the sum of the counts. */
  lemma {:induction false} SumCountsBump(ks: seq<string>, m: map<string, int>, k: string)
    requires Distinct(ks)
    requires k in ks && k in m
    ensures Sum(Counts(ks, m[k := m[k] + 1])) == Sum(Counts(ks, m)) + 1
  {
    var init, last := ks[..|ks| - 1], ks[|ks| - 1];
    var m' := m[k := m[k] + 1];
    assert Counts(ks, m') == Counts(init, m') + [Count(m', last)];
    assert Counts(ks, m) == Counts(init, m) + [Count(m, last)];
    SumSnoc(Counts(init, m'), Count(m', last));
    SumSnoc(Counts(init, m), Count(m, last));
    if last == k {
      assert k !in init by {
        forall i | 0 <= i < |init| ensures init[i] != k {
          assert ks[i] != ks[|ks| - 1];
        }
      }
      CountsFrame(init, m, k, m[k] + 1);
    } else {
      assert k in init by {
        var i :| 0 <= i < |ks| && ks[i] == k;
        assert init[i] == k;
      }
      SumCountsBump(init, m, k);
    }
  }

  /** `update` keeps the pane invariant, in particular nRequests == sum of the counts. */
  lemma UpdatePreservesWellFormed(p: PaneState, ip: string)
    requires WellFormed(p)
    ensures WellFormed(Updated(p, ip))
  {
    var q := Updated(p, ip);
    if ip in p.ipList {
      assert q == PaneState(p.timestamp, p.order, p.ipList[ip := p.ipList[ip] + 1], p.nRequests + 1);
      BumpPreservesWellFormed(p, ip);
    } else {
      assert q == PaneState(p.timestamp, p.order + [ip], p.ipList[ip := 1], p.nRequests + 1);
      AddPreservesWellFormed(p, ip);
    }
  }

  lemma BumpPreservesWellFormed(p: PaneState, ip: string)
    requires WellFormed(p) && ip in p.ipList
    ensures WellFormed(PaneState(p.timestamp, p.order, p.ipList[ip := p.ipList[ip] + 1], p.nRequests + 1))
  {
    KeySetMembers(p.order);
    SumCountsBump(p.order, p.ipList, ip);
    assert p.ipList[ip := p.ipList[ip] + 1].Keys == p.ipList.Keys;
  }

  lemma AddPreservesWellFormed(p: PaneState, ip: string)
    requires WellFormed(p) && ip !in p.ipList
    ensures WellFormed(PaneState(p.timestamp, p.order + [ip], p.ipList[ip := 1], p.nRequests + 1))
  {
    AppendKey(p.order, p.ipList, ip);
  }

  /** Appending a new key with count 1 keeps the keys listed once and adds one to the sum of the counts. */
  lemma AppendKey(ks: seq<string>, m: map<string, int>, k: string)
    requires Distinct(ks) && m.Keys == KeySet(ks) && k !in m
    ensures Distinct(ks + [k]) && m[k := 1].Keys == KeySet(ks + [k])
    ensures Sum(Counts(ks + [k], m[k := 1])) == Sum(Counts(ks, m)) + 1
  {
    var ks', m' := ks + [k], m[k := 1];
    KeySetMembers(ks);
    CountsFrame(ks, m, k, 1);
    assert ks'[..|ks|] == ks;
    assert Counts(ks', m') == Counts(ks, m') + [Count(m', k)];
    SumSnoc(Counts(ks, m), 1);
    forall i, j | 0 <= i < j < |ks'| ensures ks'[i] != ks'[j] {
      if j == |ks| {
        assert ks'[i] in KeySet(ks);
      } else {
        assert ks'[i] == ks[i] && ks'[j] == ks[j];
      }
    }
  }

  /** A sequence of distinct keys has as many elements as its set. */
  lemma {:induction false} DistinctCard(ks: seq<string>)
    requires Distinct(ks)
    ensures |KeySet(ks)| == |ks|
  {
    if |ks| > 0 {
      var init, last := ks[..|ks| - 1], ks[|ks| - 1];
      DistinctCard(init);
      KeySetMembers(init);
      assert last !in init by {
        forall i | 0 <= i < |init| ensures init[i] != last {
          assert ks[i] != ks[|ks| - 1];
        }
      }
    }
  }

  /** In a well-formed pane the number of distinct IPs is the length of the key order. */
  lemma KeyCount(p: PaneState)
    requires WellFormed(p)
    ensures |p.ipList| == |p.order|
  {
    DistinctCard(p.order);
  }

  /** What the loops of `ip_stats` need: they visit every key, once each, and every key they visit is present. */
  lemma OrderedKeys(p: PaneState)
    requires WellFormed(p)
    ensures |p.order| == |p.ipList|
    ensures forall i :: 0 <= i < |p.order| ==> p.order[i] in p.ipList
  {
    KeyCount(p);
    KeySetMembers(p.order);
  }

  /**
    `ip_stats` (utils.py:36-54): mean = total requests / number of distinct IPs,
    sd = sqrt of the undivided sum of squared deviations.  Python raises
    ZeroDivisionError on an empty pane, hence the precondition.
   */
  function IpStatsOf(p: PaneState): (s: Stats)
    requires WellFormed(p) && |p.ipList| > 0
    ensures s.numer == p.nRequests && s.denom == |p.ipList|
    ensures s.dev == Dev(Counts(p.order, p.ipList), s.numer, s.denom)
  {
    KeyCount(p);
    StatsOf(Counts(p.order, p.ipList))
  }

  /**
    The dev of IpStatsOf(p) is the source's sd_temp of the pane's per-IP counts
    for their mean, times the number of IPs squared.
   */
  lemma IpStatsIsSourceStats(p: PaneState)
    requires WellFormed(p) && |p.ipList| > 0
    ensures ScaledBy(IpStatsOf(p).dev, IpStatsOf(p).denom, SdTemp(Counts(p.order, p.ipList), Mean(IpStatsOf(p))))
  {
    MeanTimesCount(IpStatsOf(p));
    DevIsScaledSdTemp(Counts(p.order, p.ipList), IpStatsOf(p).numer, IpStatsOf(p).denom, Mean(IpStatsOf(p)));
  }

  /** The mean of IpStatsOf(p) is the source's mean: the pane's requests over its number of IPs. */
  lemma IpStatsMean(p: PaneState)
    requires WellFormed(p) && |p.ipList| > 0
    ensures Mean(IpStatsOf(p)) == p.nRequests as real / |p.ipList| as real
  {
  }

  /**
    The IP tests at utils.py:211 and 221 in real numbers: a count trips them
    exactly when it is above the mean of the pane's per-IP counts plus twice sd,
    the square root of their undivided squared deviation from that mean.
   */
  lemma IpExceedsIsMeanPlusTwoSd(p: PaneState, s: Stats, v: int, sd: real)
    requires WellFormed(p) && |p.ipList| > 0 && s == IpStatsOf(p)
    requires IsSqrt(sd, SdTemp(Counts(p.order, p.ipList), Mean(s)))
    ensures Exceeds(v, s) <==> v as real > Mean(s) + 2.0 * sd
  {
    IpStatsIsSourceStats(p);
    ExceedsIsMeanPlusTwoSdOf(v, s, sd, SdTemp(Counts(p.order, p.ipList), Mean(s)));
  }

  /** The pane object: `ipList`, `order` and `nRequests` change in place. */
  class Pane {
    const timestamp: Label
    var ipList: map<string, int>
    var order: seq<string>
    var nRequests: int

    function Model(): PaneState
      reads this
    {
      PaneState(timestamp, order, ipList, nRequests)
    }

    ghost predicate Valid()
      reads this
    {
      WellFormed(Model())
    }

    constructor (timestamp: Label)
      ensures Valid() && Model() == Empty(timestamp)
    {
      this.timestamp := timestamp;
      ipList := map[];
      order := [];
      nRequests := 0;
    }

    /** Counts one request from ip (utils.py:22-34). */
    method Update(ip: string)
      requires Valid()
      modifies this
      ensures Valid() && Model() == Updated(old(Model()), ip)
    {
      ghost var before := Model();
      UpdatePreservesWellFormed(before, ip);
      if ip !in ipList {
        ipList := ipList[ip := 1];
        order := order + [ip];
      } else {
        ipList := ipList[ip := ipList[ip] + 1];
      }
      nRequests := nRequests + 1;
      assert Model() == Updated(before, ip);
    }

    /**
      Mean and sd of the per-IP counts (utils.py:36-54), by the source's two
      loops: one accumulating numer and denom, one accumulating the deviation.
     */
    method IpStats() returns (s: Stats)
      requires Valid() && |ipList| > 0
      ensures s == IpStatsOf(Model())
      ensures s.numer == nRequests && s.denom == |ipList|
    {
      OrderedKeys(Model());
      ghost var cs := Counts(order, ipList);
      CountsAt(order, ipList);
      var numer, denom := 0, 0;
      var i := 0;
      while i < |order|
        invariant 0 <= i <= |order|
        invariant numer == Sum(cs[..i]) && denom == i
      {
        var c := ipList[order[i]];
        assert Sum(cs[..i + 1]) == numer + c by {
          assert cs[..i + 1] == cs[..i] + [cs[i]];
          SumSnoc(cs[..i], cs[i]);
        }
        numer := numer + c;
        denom := denom + 1;
        i := i + 1;
      }
      assert cs[..i] == cs;
      var sdTemp := 0;
      i := 0;
      while i < |order|
        invariant 0 <= i <= |order|
        invariant sdTemp == Dev(cs[..i], numer, denom)
      {
        var c := ipList[order[i]];
        assert Dev(cs[..i + 1], numer, denom) == sdTemp + Square(Gap(numer, denom, c)) by {
          assert cs[..i + 1] == cs[..i] + [cs[i]];
          DevSnoc(cs[..i], cs[i], numer, denom);
        }
        sdTemp := sdTemp + Square(Gap(numer, denom, c));
        i := i + 1;
      }
      assert cs[..i] == cs;
      s := Stats(numer, denom, sdTemp);
    }
  }
}

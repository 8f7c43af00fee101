/** The rate controller that reacts to round-trip inflation and loss, on 64-bit counters. */
module CongestionControl {
  import opened Bytes
  import opened Wrappers

  /** The floor of the floor, in bits per second. */
  const LEAST_FLOOR: nat := 64_000

  datatype Config = Config(
    ceil: nat, floor: nat, inflation: nat, lossOn: nat,
    decreaseNum: nat, decreaseDen: nat, increaseDiv: nat, minExpected: nat, expiry: nat)

  /** The settings used when only the ceiling is given. */
  function Default(ceil: nat): (c: Config)
    ensures Usable(c) && c.ceil == ceil
  {
    Config(ceil, Max(ceil / 16, LEAST_FLOOR), 250, 30, 7, 10, 8, 32, 10_000)
  }

  /** Nothing is divided by zero. */
  predicate Usable(c: Config) {
    c.decreaseDen > 0 && c.increaseDiv > 0 && c.minExpected > 0
  }

  /** The product and the sum that an evaluation may form fit 64 bits. */
  predicate Fits(c: Config, rate: nat)
    requires Usable(c)
  {
    rate * c.decreaseNum <= MAX64 && rate + c.ceil / c.increaseDiv <= MAX64
  }

  datatype Baseline = Baseline(rtt: u64, at: u64)

  datatype Controller = Controller(
    rate: nat, baseline: Option<Baseline>, wanted: u64, seen: u64, rtt: Option<u64>)

  datatype Report = Report(wanted: u64, seen: u64, rtt: Option<u64>, now: u64)

  function Lower(a: Option<u64>, b: Option<u64>): Option<u64> {
    if b.None? then a else if a.None? then b else Some(Min(a.value, b.value))
  }

  function Age(now: u64, at: u64): u64 {
    if now < at then 0 else now - at
  }

  function Lost(wanted: u64, seen: u64): u64 {
    if wanted < seen then 0 else wanted - seen
  }

  /** A round trip is measured against the baseline, or becomes it when it is lower or the
      baseline is stale. */
  function Base(c: Config, baseline: Option<Baseline>, rtt: u64, now: u64): u64 {
    if baseline.Some? && rtt >= baseline.value.rtt && Age(now, baseline.value.at) <= c.expiry
    then baseline.value.rtt else rtt
  }

  function NewBaseline(c: Config, baseline: Option<Baseline>, rtt: u64, now: u64): Option<Baseline> {
    if baseline.Some? && rtt >= baseline.value.rtt && Age(now, baseline.value.at) <= c.expiry
    then baseline else Some(Baseline(rtt, now))
  }

  predicate Inflated(c: Config, baseline: Option<Baseline>, rtt: Option<u64>, now: u64) {
    rtt.Some? && rtt.value * 1000 >= Base(c, baseline, rtt.value, now) * (1000 + c.inflation)
  }

  /** The loss in thousandths, with the multiplication that saturates. */
  function LossPerMille(wanted: u64, seen: u64): nat
    requires wanted > 0
  {
    Min(Lost(wanted, seen) * 1000, MAX64) / wanted
  }

  predicate Bad(c: Config, s: Controller, now: u64)
    requires s.wanted > 0
  {
    Inflated(c, s.baseline, s.rtt, now) || LossPerMille(s.wanted, s.seen) >= c.lossOn
  }

  function Reduced(c: Config, rate: nat): nat
    requires Usable(c)
  {
    Max(rate * c.decreaseNum / c.decreaseDen, c.floor)
  }

  function Raised(c: Config, rate: nat): nat
    requires Usable(c)
  {
    Min(rate + c.ceil / c.increaseDiv, c.ceil)
  }

  function Collect(s: Controller, r: Report): Controller {
    s.(wanted := SatAdd(s.wanted, r.wanted), seen := SatAdd(s.seen, r.seen), rtt := Lower(s.rtt, r.rtt))
  }

  predicate Enough(c: Config, s: Controller) {
    s.wanted >= c.minExpected
  }

  function Evaluate(c: Config, s: Controller, now: u64): Controller
    requires Usable(c) && Enough(c, s)
  {
    Controller(
      if Bad(c, s, now) then Reduced(c, s.rate) else Raised(c, s.rate),
      if s.rtt.Some? then NewBaseline(c, s.baseline, s.rtt.value, now) else s.baseline,
      0, 0, Option.None)
  }

  function Updated(c: Config, s: Controller, r: Report): Controller
    requires Usable(c)
  {
    var t := Collect(s, r);
    if Enough(c, t) then Evaluate(c, t, r.now) else t
  }

  function Started(c: Config): Controller {
    Controller(c.ceil / 4, Option.None, 0, 0, Option.None)
  }

  function Run(c: Config, s: Controller, reports: seq<Report>): Controller
    requires Usable(c)
  {
    if reports == [] then s
    else Updated(c, Run(c, s, reports[..|reports| - 1]), reports[|reports| - 1])
  }

  class CongestionController {
    const cfg: Config
    var rate: nat
    var minRtt: Option<Baseline>
    var accWanted: u64
    var accSeen: u64
    var accRtt: Option<u64>

    constructor (cfg: Config)
      ensures this.cfg == cfg && View() == Started(cfg)
    {
      this.cfg := cfg;
      rate := cfg.ceil / 4;
      minRtt := Option.None;
      accWanted, accSeen, accRtt := 0, 0, Option.None;
    }

    ghost function View(): Controller
      reads this
    {
      Controller(rate, minRtt, accWanted, accSeen, accRtt)
    }

    method Update(wanted: u64, seen: u64, rtt: Option<u64>, now: u64)
      requires Usable(cfg) && Fits(cfg, rate)
      modifies this
      ensures View() == Updated(cfg, old(View()), Report(wanted, seen, rtt, now))
    {
      hide Bad, NewBaseline, Reduced, Raised;
      accWanted := SatAdd(accWanted, wanted);
      accSeen := SatAdd(accSeen, seen);
      if rtt.Some? {
        accRtt := Some(if accRtt.Some? then Min(accRtt.value, rtt.value) else rtt.value);
      }
      if accWanted < cfg.minExpected {
        return;
      }
      ghost var t := View();
      var expected, got, sample := accWanted, accSeen, accRtt;
      accWanted, accSeen, accRtt := 0, 0, Option.None;
      var bad := Assess(expected, got, sample, now);
      assert Controller(rate, t.baseline, expected, got, sample) == t;
      rate := if bad then Reduced(cfg, rate) else Raised(cfg, rate);
    }

    /** Judges one evaluation window and renews the baseline. */
    method Assess(expected: u64, got: u64, sample: Option<u64>, now: u64) returns (bad: bool)
      requires expected > 0
      modifies this`minRtt
      ensures bad == Bad(cfg, Controller(rate, old(minRtt), expected, got, sample), now)
      ensures minRtt == if sample.Some? then NewBaseline(cfg, old(minRtt), sample.value, now) else old(minRtt)
    {
      var inflated := false;
      if sample.Some? {
        var base := sample.value;
        if minRtt.Some? && sample.value >= minRtt.value.rtt && Age(now, minRtt.value.at) <= cfg.expiry {
          base := minRtt.value.rtt;
        } else {
          minRtt := Some(Baseline(sample.value, now));
        }
        inflated := sample.value * 1000 >= base * (1000 + cfg.inflation);
      }
      var lost := Min(Lost(expected, got), expected);
      var lossPm := Min(lost * 1000, MAX64) / expected;
      bad := inflated || lossPm >= cfg.lossOn;
    }
  }

  // ---- the range of the rate ----

  predicate InRange(c: Config, s: Controller) {
    c.floor <= s.rate <= c.ceil
  }

  lemma {:induction false} ReducedKeeps(ceil: nat, rate: nat)
    requires Default(ceil).floor <= rate <= ceil
    ensures Default(ceil).floor <= Reduced(Default(ceil), rate) <= ceil
    ensures Default(ceil).floor <= Raised(Default(ceil), rate) <= ceil
  {
  }

  lemma {:induction false} UpdateKeepsRange(ceil: nat, s: Controller, r: Report)
    requires InRange(Default(ceil), s)
    ensures InRange(Default(ceil), Updated(Default(ceil), s, r))
  {
    hide Reduced, Raised, Bad, Collect;
    CollectKeepsRate(s, r);
    ReducedKeeps(ceil, s.rate);
  }

  lemma {:induction false} CollectKeepsRate(s: Controller, r: Report)
    ensures Collect(s, r).rate == s.rate && Collect(s, r).baseline == s.baseline
  {
  }

  lemma {:induction false} RunKeepsRange(ceil: nat, s: Controller, reports: seq<Report>)
    requires InRange(Default(ceil), s)
    ensures InRange(Default(ceil), Run(Default(ceil), s, reports))
  {
    hide Updated, InRange;
    if reports == [] {
    } else {
      RunKeepsRange(ceil, s, reports[..|reports| - 1]);
      UpdateKeepsRange(ceil, Run(Default(ceil), s, reports[..|reports| - 1]), reports[|reports| - 1]);
    }
  }

  /** The rate of a default controller stays between its floor and its ceiling, whatever the
      reports, exactly when the ceiling is at least 256 kbit/s: below that it starts under
      its floor. */
  lemma {:induction false} RangeExactly(ceil: nat)
    ensures (forall reports :: InRange(Default(ceil), Run(Default(ceil), Started(Default(ceil)), reports)))
      <==> ceil >= 4 * LEAST_FLOOR
  {
    var c := Default(ceil);
    if ceil >= 4 * LEAST_FLOOR {
      forall reports ensures InRange(c, Run(c, Started(c), reports)) {
        RunKeepsRange(ceil, Started(c), reports);
      }
    } else {
      assert Run(c, Started(c), []) == Started(c);
      assert !InRange(c, Run(c, Started(c), []));
    }
  }

  lemma {:induction false} RateBounded(ceil: u64, reports: seq<Report>)
    ensures Run(Default(ceil), Started(Default(ceil)), reports).rate <= Max(ceil, LEAST_FLOOR)
  {
    hide Bad, Evaluate, Enough;
    if reports == [] {
    } else {
      var before := reports[..|reports| - 1];
      RateBounded(ceil, before);
      var s := Run(Default(ceil), Started(Default(ceil)), before);
      CollectKeepsRate(s, reports[|reports| - 1]);
      if Enough(Default(ceil), Collect(s, reports[|reports| - 1])) {
        EvaluateRate(Default(ceil), Collect(s, reports[|reports| - 1]), reports[|reports| - 1].now);
      }
    }
  }

  lemma {:induction false} EvaluateRate(c: Config, s: Controller, now: u64)
    requires Usable(c) && Enough(c, s)
    ensures Evaluate(c, s, now).rate in {Reduced(c, s.rate), Raised(c, s.rate)}
  {
    hide Bad, Reduced, Raised;
  }

  // ---- how fast it moves ----

  /** The rate after some evaluations that all went one way. */
  function Rates(c: Config, rate: nat, bad: bool, n: nat): nat
    requires Usable(c)
  {
    if n == 0 then rate
    else
      var r := Rates(c, rate, bad, n - 1);
      if bad then Reduced(c, r) else Raised(c, r)
  }

  function Pow(b: nat, n: nat): nat {
    if n == 0 then 1 else b * Pow(b, n - 1)
  }

  lemma {:induction false} ReducedShrinks(ceil: nat, rate: nat, n: nat)
    requires rate <= ceil
    ensures var r := Rates(Default(ceil), rate, true, n);
      r == Default(ceil).floor || Pow(10, n) * r <= Pow(7, n) * ceil
  {
    hide Default, Reduced;
    if n == 0 {
    } else {
      ReducedShrinks(ceil, rate, n - 1);
      var r := Rates(Default(ceil), rate, true, n - 1);
      ReducedStep(ceil, r);
      var q := Reduced(Default(ceil), r);
      if q != Default(ceil).floor {
        Scaled(Pow(10, n - 1), Pow(7, n - 1), ceil, r, q);
      }
    }
  }

  lemma {:induction false} Scaled(tens: nat, sevens: nat, ceil: nat, r: nat, q: nat)
    requires tens * r <= sevens * ceil && 10 * q <= 7 * r
    ensures 10 * tens * q <= 7 * sevens * ceil
  {
    calc {
      10 * tens * q;
      == tens * (10 * q);
      <= { MulGrows(tens, 10 * q, 7 * r); } tens * (7 * r);
      == 7 * (tens * r);
      <= 7 * (sevens * ceil);
      == 7 * sevens * ceil;
    }
  }

  lemma {:induction false} MulGrows(k: nat, a: nat, b: nat)
    requires a <= b
    ensures k * a <= k * b
  {
  }

  lemma {:induction false} ReducedStep(ceil: nat, r: nat)
    ensures var c := Default(ceil);
      && Reduced(c, r) >= c.floor
      && (Reduced(c, r) == c.floor || 10 * Reduced(c, r) <= 7 * r)
      && (r == c.floor ==> Reduced(c, r) == c.floor)
  {
  }

  lemma {:induction false} Powers()
    ensures Pow(10, 8) == 1_0000_0000 && Pow(7, 8) == 576_4801
  {
    assert Pow(10, 4) == 1_0000 && Pow(7, 4) == 2401;
    assert Pow(10, 6) == 100_0000 && Pow(7, 6) == 11_7649;
  }

  /** Eight bad evaluations in a row bring any rate up to the ceiling down to the floor. */
  lemma {:induction false} EightBadReachFloor(ceil: nat, rate: nat)
    requires rate <= ceil
    ensures Rates(Default(ceil), rate, true, 8) == Default(ceil).floor
  {
    hide Rates, Reduced, Pow;
    ReducedShrinks(ceil, rate, 8);
    Powers();
    LastStep(ceil, rate);
  }

  lemma {:induction false} LastStep(ceil: nat, rate: nat)
    ensures Rates(Default(ceil), rate, true, 8) >= Default(ceil).floor
  {
    hide Default, Reduced;
    ReducedStep(ceil, Rates(Default(ceil), rate, true, 7));
  }

  lemma {:induction false} RaisedGrows(ceil: nat, rate: nat, n: nat)
    requires rate <= ceil && n <= 8
    ensures Rates(Default(ceil), rate, false, n) == Min(rate + n * (ceil / 8), ceil)
  {
    if n == 0 {
    } else {
      RaisedGrows(ceil, rate, n - 1);
      assert n * (ceil / 8) == (n - 1) * (ceil / 8) + ceil / 8;
    }
  }

  /** Eight good evaluations in a row bring any rate in range up to the ceiling. */
  lemma {:induction false} EightGoodReachCeiling(ceil: nat, rate: nat)
    requires Default(ceil).floor <= rate <= ceil
    ensures Rates(Default(ceil), rate, false, 8) == ceil
  {
    RaisedGrows(ceil, rate, 8);
  }

  /** Seven evaluations are not enough in either direction. */
  lemma {:induction false} SevenAreNotEnough()
    ensures var c := Default(16_000_000);
      && Usable(c)
      && Rates(c, c.ceil, true, 7) > c.floor
      && Rates(c, c.floor, false, 7) < c.ceil
  {
    var c := Default(16_000_000);
    assert Rates(c, c.ceil, true, 1) == 11_200_000;
    assert Rates(c, c.ceil, true, 2) == 7_840_000;
    assert Rates(c, c.ceil, true, 3) == 5_488_000;
    assert Rates(c, c.ceil, true, 4) == 3_841_600;
    assert Rates(c, c.ceil, true, 5) == 2_689_120;
    assert Rates(c, c.ceil, true, 6) == 1_882_384;
    assert Rates(c, c.ceil, true, 7) == 1_317_668;
    RaisedGrows(16_000_000, c.floor, 7);
  }

  /** How many of the reports complete an evaluation. */
  function Evaluations(c: Config, s: Controller, reports: seq<Report>): nat
    requires Usable(c)
  {
    if reports == [] then 0
    else
      var n := |reports| - 1;
      Evaluations(c, s, reports[..n])
        + if Enough(c, Collect(Run(c, s, reports[..n]), reports[n])) then 1 else 0
  }

  /** Every evaluation of the run goes one way; reports that only accumulate may come anywhere between. */
  ghost predicate OneWay(c: Config, s: Controller, reports: seq<Report>, bad: bool)
    requires Usable(c)
  {
    forall i :: 0 <= i < |reports| ==>
      var t := Collect(Run(c, s, reports[..i]), reports[i]);
      Enough(c, t) ==> Bad(c, t, reports[i].now) == bad
  }

  /** The rate moves once for each evaluation, and reports that only accumulate leave it alone. */
  lemma {:induction false} RunOfOneKind(c: Config, s: Controller, reports: seq<Report>, bad: bool)
    requires Usable(c) && OneWay(c, s, reports, bad)
    ensures Run(c, s, reports).rate == Rates(c, s.rate, bad, Evaluations(c, s, reports))
  {
    hide Reduced, Raised, Bad, Collect;
    if reports == [] {
    } else {
      var n := |reports| - 1;
      forall i | 0 <= i < n ensures
        var t := Collect(Run(c, s, reports[..n][..i]), reports[..n][i]);
        Enough(c, t) ==> Bad(c, t, reports[..n][i].now) == bad
      {
        assert reports[..n][..i] == reports[..i];
      }
      RunOfOneKind(c, s, reports[..n], bad);
      CollectKeepsRate(Run(c, s, reports[..n]), reports[n]);
    }
  }

  lemma {:induction false} RatesStay(ceil: nat, rate: nat, bad: bool, n: nat)
    requires n >= 8 && rate <= ceil && (!bad ==> Default(ceil).floor <= rate)
    ensures Rates(Default(ceil), rate, bad, n) == if bad then Default(ceil).floor else ceil
  {
    if n == 8 {
      if bad { EightBadReachFloor(ceil, rate); } else { EightGoodReachCeiling(ceil, rate); }
    } else {
      RatesStay(ceil, rate, bad, n - 1);
    }
  }

  /** A run whose evaluations are all bad, at least eight of them, ends at the floor; one whose evaluations are all
      good, at least eight of them, ends at the ceiling: from any state in range, however the counts were reported. */
  lemma {:induction false} EightEvaluationsDecide(ceil: nat, s: Controller, reports: seq<Report>, bad: bool)
    requires InRange(Default(ceil), s) && OneWay(Default(ceil), s, reports, bad)
    requires Evaluations(Default(ceil), s, reports) >= 8
    ensures Run(Default(ceil), s, reports).rate == if bad then Default(ceil).floor else ceil
  {
    hide Run, Evaluations, OneWay, Rates;
    RunOfOneKind(Default(ceil), s, reports, bad);
    RatesStay(ceil, s.rate, bad, Evaluations(Default(ceil), s, reports));
  }

  // ---- overflow ----

  /** A report that completes a good evaluation on its own. */
  const GOOD := Report(32, 32, Option.None, 0)

  function Goods(n: nat): (r: seq<Report>)
    ensures |r| == n
  {
    if n == 0 then [] else Goods(n - 1) + [GOOD]
  }

  lemma {:induction false} GoodsRaise(ceil: nat, n: nat)
    ensures var s := Run(Default(ceil), Started(Default(ceil)), Goods(n));
      s.rate == Rates(Default(ceil), ceil / 4, false, n) && s.wanted == 0 && s.seen == 0 && s.rtt.None?
  {
    hide Default, Raised;
    if n == 0 {
    } else {
      GoodsRaise(ceil, n - 1);
      assert Goods(n)[..n - 1] == Goods(n - 1);
      GoodRaises(ceil, Run(Default(ceil), Started(Default(ceil)), Goods(n - 1)));
    }
  }

  lemma {:induction false} GoodRaises(ceil: nat, s: Controller)
    requires s.wanted == 0 && s.seen == 0 && s.rtt.None?
    ensures var t := Updated(Default(ceil), s, GOOD);
      t.rate == Raised(Default(ceil), s.rate) && t.wanted == 0 && t.seen == 0 && t.rtt.None?
  {
    hide Raised;
  }

  /** In every run of a default controller all products and sums of rates fit 64 bits exactly when seven times the
      ceiling does. */
  lemma {:induction false} NoOverflowExactly(ceil: u64)
    ensures var c := Default(ceil);
      (forall reports :: Fits(c, Run(c, Started(c), reports).rate)) <==> 7 * ceil <= MAX64
  {
    hide Run, Rates;
    var c := Default(ceil);
    if 7 * ceil <= MAX64 {
      forall reports ensures Fits(c, Run(c, Started(c), reports).rate) {
        RateBounded(ceil, reports);
      }
    } else {
      GoodsRaise(ceil, 8);
      RaisedGrows(ceil, ceil / 4, 8);
      assert Run(c, Started(c), Goods(8)).rate == ceil;
      assert !Fits(c, Run(c, Started(c), Goods(8)).rate);
    }
  }

  // ---- how reports are split ----

  /** All reports taken as one, at the time of the last. */
  function Merged(reports: seq<Report>): Report
    requires reports != []
  {
    var last := reports[|reports| - 1];
    if |reports| == 1 then last
    else
      var m := Merged(reports[..|reports| - 1]);
      Report(SatAdd(m.wanted, last.wanted), SatAdd(m.seen, last.seen), Lower(m.rtt, last.rtt), last.now)
  }

  /** No evaluation happens before the last report. */
  predicate Quiet(c: Config, s: Controller, reports: seq<Report>) {
    forall i :: 0 < i < |reports| ==> !Enough(c, Collect(s, Merged(reports[..i])))
  }

  lemma {:induction false} CollectTwice(s: Controller, a: Report, b: Report)
    ensures Collect(Collect(s, a), b)
      == Collect(s, Report(SatAdd(a.wanted, b.wanted), SatAdd(a.seen, b.seen), Lower(a.rtt, b.rtt), b.now))
  {
  }

  /** Reports that lead to no evaluation before the last have the effect of one report with their
      sums and their lowest round trip. */
  lemma {:induction false} ReportsMerge(c: Config, s: Controller, reports: seq<Report>)
    requires Usable(c) && reports != [] && Quiet(c, s, reports)
    ensures Run(c, s, reports) == Updated(c, s, Merged(reports))
  {
    hide Usable, Evaluate, Collect, Enough;
    var n := |reports| - 1;
    if n == 0 {
      assert Run(c, s, reports[..0]) == s;
    } else {
      forall i | 0 < i < n ensures !Enough(c, Collect(s, Merged(reports[..n][..i]))) {
        assert reports[..n][..i] == reports[..i];
      }
      ReportsMerge(c, s, reports[..n]);
      CollectTwice(s, Merged(reports[..n]), reports[n]);
    }
  }

  /** How the same counts are split into reports does not matter. */
  lemma {:induction false} SplitDoesNotMatter(c: Config, s: Controller, a: seq<Report>, b: seq<Report>)
    requires Usable(c) && a != [] && b != [] && Quiet(c, s, a) && Quiet(c, s, b)
    requires Merged(a) == Merged(b)
    ensures Run(c, s, a) == Run(c, s, b)
  {
    hide Updated, Merged, Quiet, Run;
    ReportsMerge(c, s, a);
    ReportsMerge(c, s, b);
  }

  // ---- the loss test ----

  lemma {:induction false} AtLeastQuotient(x: nat, d: nat, q: nat)
    requires d > 0
    ensures x / d >= q <==> x >= q * d
  {
    var k := x / d;
    assert x == k * d + x % d;
    if k >= q {
      MulGrows(d, q, k);
    } else {
      MulGrows(d, k + 1, q);
    }
  }

  /** The loss test is the comparison of lost with expected that it stands for exactly as long as
      the multiplication does not saturate below the threshold: it misses any loss once the
      expected count times the threshold exceeds 64 bits. */
  lemma {:induction false} LossTestMeans(wanted: u64, seen: u64, threshold: nat)
    requires wanted > 0
    ensures LossPerMille(wanted, seen) >= threshold
      <==> Lost(wanted, seen) * 1000 >= threshold * wanted && threshold * wanted <= MAX64
  {
    AtLeastQuotient(Min(Lost(wanted, seen) * 1000, MAX64), wanted, threshold);
  }
}

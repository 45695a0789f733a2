/**
  The period aggregation engine (business/aggregate): three strategies fold a list of
  consumption records into a map from period label to bucket. They differ in the label
  they derive from a record's date; daily and weekly create an empty bucket and then
  append, monthly creates the bucket from its first record and appends the later ones.
*/
module Aggregation {
  import opened Civil
  import opened Decimal
  import opened Model

  datatype Strategy = Monthly | Weekly | Daily

  // ---------------------------------------------------------------- labels

  /** "Jan 2": month abbreviation and unpadded day, no year. */
  function DailyLabel(d: CivilDate): string
  {
    MonthAbbrev(d.month) + " " + NatToString(d.day)
  }

  /** The Sunday that starts d's week: d moved back by its weekday. */
  function WeekStart(d: CivilDate): CivilDate
  {
    AddDays(d, -Weekday(d))
  }

  function WeekEnd(d: CivilDate): CivilDate
  {
    AddDays(WeekStart(d), 6)
  }

  /** "<Mon> <d> - <Mon> <d>" for the Sunday-to-Saturday week of d, no year. */
  function WeeklyLabel(d: CivilDate): string
  {
    var start, end := WeekStart(d), WeekEnd(d);
    MonthAbbrev(start.month) + " " + NatToString(start.day) + " - "
      + MonthAbbrev(end.month) + " " + NatToString(end.day)
  }

  /** The layout "Jan 2006": month abbreviation and the year padded to four digits. */
  function MonthlyLabel(d: CivilDate): string
  {
    MonthAbbrev(d.month) + " " + YearString(d.year)
  }

  function LabelOf(strategy: Strategy): CivilDate -> string
  {
    match strategy
    case Monthly => MonthlyLabel
    case Weekly => WeeklyLabel
    case Daily => DailyLabel
  }

  // ---------------------------------------------------------------- the fold

  function EmptyBucket(period: string): AggregatedConsumption
  {
    AggregatedConsumption([period], [], [], [], [])
  }

  /** The bucket monthly creates for the first record of a month. */
  function FirstBucket(period: string, c: Consumption): AggregatedConsumption
  {
    AggregatedConsumption([period], [c.activeEnergy], [c.reactiveInductive],
                          [c.reactiveCapacitive], [c.exportedEnergy])
  }

  function Appended(b: AggregatedConsumption, c: Consumption): AggregatedConsumption
  {
    b.(activeEnergy := b.activeEnergy + [c.activeEnergy],
       reactiveInductive := b.reactiveInductive + [c.reactiveInductive],
       reactiveCapacitive := b.reactiveCapacitive + [c.reactiveCapacitive],
       exportedEnergy := b.exportedEnergy + [c.exportedEnergy])
  }

  /** One pass of the daily/weekly loop body: create the bucket if absent, then append. */
  function Step(m: map<string, AggregatedConsumption>, c: Consumption, periodOf: CivilDate -> string)
    : map<string, AggregatedConsumption>
  {
    var k := periodOf(c.date);
    m[k := Appended(if k in m then m[k] else EmptyBucket(k), c)]
  }

  /** The aggregation of a record list under a label function, record by record. */
  function Aggregate(cs: seq<Consumption>, periodOf: CivilDate -> string): map<string, AggregatedConsumption>
  {
    if cs == [] then map[] else Step(Aggregate(cs[..|cs| - 1], periodOf), cs[|cs| - 1], periodOf)
  }

  /** Step on a label not yet in the map adds a bucket holding just this record. */
  lemma StepFresh(m: map<string, AggregatedConsumption>, c: Consumption, periodOf: CivilDate -> string)
    requires periodOf(c.date) !in m
    ensures Step(m, c, periodOf) == m[periodOf(c.date) := FirstBucket(periodOf(c.date), c)]
  {
    assert FirstBucket(periodOf(c.date), c) == Appended(EmptyBucket(periodOf(c.date)), c);
  }

  /** Step on a label already in the map appends the record to that bucket. */
  lemma StepPresent(m: map<string, AggregatedConsumption>, c: Consumption, periodOf: CivilDate -> string)
    requires periodOf(c.date) in m
    ensures Step(m, c, periodOf) == m[periodOf(c.date) := Appended(m[periodOf(c.date)], c)]
  {
  }

  /** One more record of the input is one more Step. */
  lemma AggregatePrefix(cs: seq<Consumption>, i: nat, periodOf: CivilDate -> string)
    requires i < |cs|
    ensures Aggregate(cs[..i + 1], periodOf) == Step(Aggregate(cs[..i], periodOf), cs[i], periodOf)
  {
    assert cs[..i + 1][..i] == cs[..i];
  }

  // ---------------------------------------------------------------- reference description

  /** The labels of the records. */
  function Labels(cs: seq<Consumption>, periodOf: CivilDate -> string): set<string>
  {
    if cs == [] then {} else Labels(cs[..|cs| - 1], periodOf) + {periodOf(cs[|cs| - 1].date)}
  }

  /** The records whose label is k, in input order. */
  function Matching(cs: seq<Consumption>, periodOf: CivilDate -> string, k: string): seq<Consumption>
  {
    if cs == [] then []
    else Matching(cs[..|cs| - 1], periodOf, k) + (if periodOf(cs[|cs| - 1].date) == k then [cs[|cs| - 1]] else [])
  }

  /** The bucket that holds exactly the given records under label k. */
  function BucketOf(k: string, cs: seq<Consumption>): AggregatedConsumption
  {
    AggregatedConsumption([k], Readings(cs, Active), Readings(cs, ReactiveInductive),
                          Readings(cs, ReactiveCapacitive), Readings(cs, Exported))
  }

  lemma {:induction false} MatchingOutsideLabels(cs: seq<Consumption>, periodOf: CivilDate -> string, k: string)
    requires k !in Labels(cs, periodOf)
    ensures Matching(cs, periodOf, k) == []
  {
    if cs != [] {
      MatchingOutsideLabels(cs[..|cs| - 1], periodOf, k);
    }
  }

  lemma AppendedBucketOf(k: string, cs: seq<Consumption>, c: Consumption)
    ensures Appended(BucketOf(k, cs), c) == BucketOf(k, cs + [c])
  {
    ReadingsAppend(cs, c, Active);
    ReadingsAppend(cs, c, ReactiveInductive);
    ReadingsAppend(cs, c, ReactiveCapacitive);
    ReadingsAppend(cs, c, Exported);
  }

  /** The fold at one key: present exactly for a label of some record, holding that label's records. */
  lemma {:induction false} AggregateAt(cs: seq<Consumption>, periodOf: CivilDate -> string, k: string)
    ensures k in Aggregate(cs, periodOf) <==> k in Labels(cs, periodOf)
    ensures k in Aggregate(cs, periodOf) ==>
      Aggregate(cs, periodOf)[k] == BucketOf(k, Matching(cs, periodOf, k)) && |Matching(cs, periodOf, k)| > 0
  {
    if cs != [] {
      var init, c := cs[..|cs| - 1], cs[|cs| - 1];
      AggregateAt(init, periodOf, k);
      var m := Aggregate(init, periodOf);
      assert Aggregate(cs, periodOf) == Step(m, c, periodOf);
      assert Labels(cs, periodOf) == Labels(init, periodOf) + {periodOf(c.date)};
      if periodOf(c.date) == k {
        assert Matching(cs, periodOf, k) == Matching(init, periodOf, k) + [c];
        if k in m {
          AppendedBucketOf(k, Matching(init, periodOf, k), c);
        } else {
          MatchingOutsideLabels(init, periodOf, k);
          AppendedBucketOf(k, [], c);
        }
      } else {
        assert Matching(cs, periodOf, k) == Matching(init, periodOf, k) + [];
        assert Matching(init, periodOf, k) + [] == Matching(init, periodOf, k);
      }
    }
  }

  /**
    What the fold computes: one key per label present in the input, and under each
    key the bucket of exactly the records with that label, in input order.
  */
  lemma AggregateCharacterization(cs: seq<Consumption>, periodOf: CivilDate -> string)
    ensures Aggregate(cs, periodOf).Keys == Labels(cs, periodOf)
    ensures forall k :: k in Aggregate(cs, periodOf) ==>
      Aggregate(cs, periodOf)[k] == BucketOf(k, Matching(cs, periodOf, k)) && |Matching(cs, periodOf, k)| > 0
  {
    forall k
      ensures k in Aggregate(cs, periodOf) <==> k in Labels(cs, periodOf)
      ensures k in Aggregate(cs, periodOf) ==>
        Aggregate(cs, periodOf)[k] == BucketOf(k, Matching(cs, periodOf, k)) && |Matching(cs, periodOf, k)| > 0
    {
      AggregateAt(cs, periodOf, k);
    }
  }

  /** Every bucket: its period is the singleton [key] and all four series list the readings of its records. */
  lemma BucketShape(cs: seq<Consumption>, periodOf: CivilDate -> string, k: string, s: Series)
    requires k in Aggregate(cs, periodOf)
    ensures Aggregate(cs, periodOf)[k].period == [k]
    ensures Values(Aggregate(cs, periodOf)[k], s) == Readings(Matching(cs, periodOf, k), s)
    ensures |Values(Aggregate(cs, periodOf)[k], s)| == |Matching(cs, periodOf, k)| > 0
  {
    AggregateCharacterization(cs, periodOf);
  }

  /** Records that come later land after earlier ones within a bucket. */
  lemma {:induction false} MatchingConcat(a: seq<Consumption>, b: seq<Consumption>, periodOf: CivilDate -> string, k: string)
    ensures Matching(a + b, periodOf, k) == Matching(a, periodOf, k) + Matching(b, periodOf, k)
    decreases |b|
  {
    if b == [] {
      assert a + b == a;
    } else {
      assert (a + b)[..|a + b| - 1] == a + b[..|b| - 1];
      MatchingConcat(a, b[..|b| - 1], periodOf, k);
    }
  }

  lemma {:induction false} MatchingLabelled(cs: seq<Consumption>, periodOf: CivilDate -> string, k: string)
    ensures forall c :: c in Matching(cs, periodOf, k) ==> c in cs && periodOf(c.date) == k
  {
    if cs != [] {
      MatchingLabelled(cs[..|cs| - 1], periodOf, k);
    }
  }

  lemma {:induction false} LabelsMembership(cs: seq<Consumption>, periodOf: CivilDate -> string, k: string)
    ensures k in Labels(cs, periodOf) <==> exists i :: 0 <= i < |cs| && periodOf(cs[i].date) == k
  {
    if cs != [] {
      var init := cs[..|cs| - 1];
      LabelsMembership(init, periodOf, k);
      if k in Labels(init, periodOf) {
        var i :| 0 <= i < |init| && periodOf(init[i].date) == k;
        assert cs[i] == init[i];
      }
      if exists i :: 0 <= i < |cs| && periodOf(cs[i].date) == k {
        var i :| 0 <= i < |cs| && periodOf(cs[i].date) == k;
        if i < |init| {
          assert init[i] == cs[i];
        }
      }
    }
  }

  /** The key set of the result is exactly the set of labels of the input records. */
  lemma AggregateKeys(cs: seq<Consumption>, periodOf: CivilDate -> string, k: string)
    ensures k in Aggregate(cs, periodOf) <==> exists i :: 0 <= i < |cs| && periodOf(cs[i].date) == k
  {
    AggregateCharacterization(cs, periodOf);
    LabelsMembership(cs, periodOf, k);
  }

  // ---------------------------------------------------------------- the strategies

  /** The loop shared by the daily and weekly strategies: create an empty bucket, then append. */
  method AggregateEmptyThenAppend(consumptions: seq<Consumption>, periodOf: CivilDate -> string)
    returns (aggregation: map<string, AggregatedConsumption>)
    ensures aggregation == Aggregate(consumptions, periodOf)
  {
    aggregation := map[];
    var i := 0;
    while i < |consumptions|
      invariant 0 <= i <= |consumptions|
      invariant aggregation == Aggregate(consumptions[..i], periodOf)
    {
      ghost var before := aggregation;
      var consumption := consumptions[i];
      var period := periodOf(consumption.date);
      if period !in aggregation {
        aggregation := aggregation[period := EmptyBucket(period)];
      }
      var aggData := aggregation[period];
      aggData := aggData.(activeEnergy := aggData.activeEnergy + [consumption.activeEnergy]);
      aggData := aggData.(reactiveInductive := aggData.reactiveInductive + [consumption.reactiveInductive]);
      aggData := aggData.(reactiveCapacitive := aggData.reactiveCapacitive + [consumption.reactiveCapacitive]);
      aggData := aggData.(exportedEnergy := aggData.exportedEnergy + [consumption.exportedEnergy]);
      aggregation := aggregation[period := aggData];
      assert aggregation == Step(before, consumption, periodOf);
      AggregatePrefix(consumptions, i, periodOf);
      i := i + 1;
    }
    assert consumptions[..i] == consumptions;
  }

  method AggregateDaily(consumptions: seq<Consumption>) returns (aggregation: map<string, AggregatedConsumption>)
    ensures aggregation == Aggregate(consumptions, DailyLabel)
  {
    aggregation := AggregateEmptyThenAppend(consumptions, DailyLabel);
  }

  method AggregateWeekly(consumptions: seq<Consumption>) returns (aggregation: map<string, AggregatedConsumption>)
    ensures aggregation == Aggregate(consumptions, WeeklyLabel)
  {
    aggregation := AggregateEmptyThenAppend(consumptions, WeeklyLabel);
  }

  /**
    The monthly strategy's loop: the first record of a label creates singleton series,
    later ones append. It computes the same map as the generic fold.
  */
  method AggregateFirstThenAppend(consumptions: seq<Consumption>, periodOf: CivilDate -> string)
    returns (aggregation: map<string, AggregatedConsumption>)
    ensures aggregation == Aggregate(consumptions, periodOf)
  {
    aggregation := map[];
    var i := 0;
    while i < |consumptions|
      invariant 0 <= i <= |consumptions|
      invariant aggregation == Aggregate(consumptions[..i], periodOf)
    {
      ghost var before := aggregation;
      var consumption := consumptions[i];
      var month := periodOf(consumption.date);
      if month !in aggregation {
        StepFresh(before, consumption, periodOf);
        aggregation := aggregation[month := FirstBucket(month, consumption)];
      } else {
        StepPresent(before, consumption, periodOf);
        var aggData := aggregation[month];
        aggData := aggData.(activeEnergy := aggData.activeEnergy + [consumption.activeEnergy]);
        aggData := aggData.(reactiveInductive := aggData.reactiveInductive + [consumption.reactiveInductive]);
        aggData := aggData.(reactiveCapacitive := aggData.reactiveCapacitive + [consumption.reactiveCapacitive]);
        aggData := aggData.(exportedEnergy := aggData.exportedEnergy + [consumption.exportedEnergy]);
        assert aggData == Appended(before[month], consumption);
        aggregation := aggregation[month := aggData];
      }
      assert aggregation == Step(before, consumption, periodOf);
      AggregatePrefix(consumptions, i, periodOf);
      i := i + 1;
    }
    assert consumptions[..i] == consumptions;
  }

  method AggregateMonthly(consumptions: seq<Consumption>) returns (aggregation: map<string, AggregatedConsumption>)
    ensures aggregation == Aggregate(consumptions, MonthlyLabel)
  {
    aggregation := AggregateFirstThenAppend(consumptions, MonthlyLabel);
  }

  /** strategy.Aggregate(consumptions) for the selected strategy. */
  method AggregateWith(strategy: Strategy, consumptions: seq<Consumption>)
    returns (aggregation: map<string, AggregatedConsumption>)
    ensures aggregation == Aggregate(consumptions, LabelOf(strategy))
  {
    match strategy
    case Monthly => aggregation := AggregateMonthly(consumptions);
    case Weekly => aggregation := AggregateWeekly(consumptions);
    case Daily => aggregation := AggregateDaily(consumptions);
  }

  // ---------------------------------------------------------------- label properties

  lemma NatToStringInjective(a: nat, b: nat)
    requires NatToString(a) == NatToString(b)
    ensures a == b
  {
    NatToStringRoundTrip(a);
    NatToStringRoundTrip(b);
  }

  /** A daily label names one month and day, and nothing about the year. */
  lemma DailyLabelMeaning(a: CivilDate, b: CivilDate)
    ensures DailyLabel(a) == DailyLabel(b) <==> a.month == b.month && a.day == b.day
  {
    if DailyLabel(a) == DailyLabel(b) {
      assert DailyLabel(a)[..3] == MonthAbbrev(a.month);
      assert DailyLabel(b)[..3] == MonthAbbrev(b.month);
      MonthAbbrevInjective(a.month, b.month);
      assert DailyLabel(a)[4..] == NatToString(a.day);
      assert DailyLabel(b)[4..] == NatToString(b.day);
      NatToStringInjective(a.day, b.day);
    }
  }

  /** A monthly label names one month of one year. */
  lemma MonthlyLabelMeaning(a: CivilDate, b: CivilDate)
    ensures MonthlyLabel(a) == MonthlyLabel(b) <==> a.month == b.month && a.year == b.year
  {
    if MonthlyLabel(a) == MonthlyLabel(b) {
      assert MonthlyLabel(a)[..3] == MonthAbbrev(a.month);
      assert MonthlyLabel(b)[..3] == MonthAbbrev(b.month);
      MonthAbbrevInjective(a.month, b.month);
      assert MonthlyLabel(a)[4..] == YearString(a.year);
      assert MonthlyLabel(b)[4..] == YearString(b.year);
      YearStringInjective(a.year, b.year);
    }
  }

  lemma SubtractRemainder(x: int)
    ensures (x - x % 7) % 7 == 0
  {
    var q := x / 7;
    assert x - x % 7 == 7 * q;
  }

  /** Every week starts on a Sunday. */
  lemma WeekStartIsSunday(d: CivilDate)
    ensures Weekday(WeekStart(d)) == 0
  {
    var x := DayNumber(d) + 4;
    WeekStartNumber(d);
    assert DayNumber(WeekStart(d)) + 4 == x - x % 7;
    SubtractRemainder(x);
  }

  /** d lies in the seven days from its week's start to its week's end. */
  lemma WeekContainsDate(d: CivilDate)
    ensures DayNumber(WeekStart(d)) <= DayNumber(d) <= DayNumber(WeekEnd(d))
    ensures DayNumber(WeekEnd(d)) == DayNumber(WeekStart(d)) + 6
  {
    WeekStartNumber(d);
    WeekEndNumber(d);
  }

  lemma WeekStartNumber(d: CivilDate)
    ensures DayNumber(WeekStart(d)) == DayNumber(d) - Weekday(d)
  {
    var w := Weekday(d);
    AddDaysNumber(d, -w);
    assert WeekStart(d) == AddDays(d, -w);
  }

  lemma WeekEndNumber(d: CivilDate)
    ensures DayNumber(WeekEnd(d)) == DayNumber(WeekStart(d)) + 6
  {
    var ws := WeekStart(d);
    AddDaysNumber(ws, 6);
    assert WeekEnd(d) == AddDays(ws, 6);
  }

  /** The week start and end are found from day numbers alone. */
  lemma WeekBounds(d: CivilDate, start: CivilDate, end: CivilDate)
    requires DayNumber(start) == DayNumber(d) - Weekday(d)
    requires DayNumber(end) == DayNumber(start) + 6
    ensures WeekStart(d) == start && WeekEnd(d) == end
  {
    WeekStartNumber(d);
    DayNumberInjective(WeekStart(d), start);
    WeekEndNumber(d);
    DayNumberInjective(WeekEnd(d), end);
  }

  /** k days after a Sunday, within the week, is weekday k. */
  lemma WeekdayAfterSunday(s: CivilDate, d: CivilDate, k: int)
    requires Weekday(s) == 0 && 0 <= k < 7 && DayNumber(d) == DayNumber(s) + k
    ensures Weekday(d) == k
  {
    var x, y := DayNumber(s) + 4, DayNumber(d) + 4;
    assert x % 7 == 0 && y == x + k;
    AddRemainder(x, k);
  }

  lemma AddRemainder(x: int, k: int)
    requires x % 7 == 0 && 0 <= k < 7
    ensures (x + k) % 7 == k
  {
    var q := x / 7;
    assert x + k == 7 * q + k;
  }

  /** All seven dates of the week that starts on Sunday s have s as their week start. */
  lemma SameWeekSameStart(s: CivilDate, k: int)
    requires Weekday(s) == 0 && 0 <= k < 7
    ensures WeekStart(AddDays(s, k)) == s
    ensures WeeklyLabel(AddDays(s, k)) == WeeklyLabel(s)
  {
    var d := AddDays(s, k);
    assert DayNumber(d) == DayNumber(s) + k by {
      AddDaysNumber(s, k);
    }
    WeekdayAfterSunday(s, d, k);
    var end := AddDays(s, 6);
    assert DayNumber(end) == DayNumber(s) + 6 by {
      AddDaysNumber(s, 6);
    }
    WeekBounds(d, s, end);
    WeekBounds(s, s, end);
  }

  // ---------------------------------------------------------------- bucket properties

  /** Records in one monthly bucket share their year and month: distinct years never mix. */
  lemma MonthlyBucketIsOneMonth(cs: seq<Consumption>, k: string, c1: Consumption, c2: Consumption)
    requires c1 in Matching(cs, MonthlyLabel, k) && c2 in Matching(cs, MonthlyLabel, k)
    ensures c1.date.year == c2.date.year && c1.date.month == c2.date.month
  {
    MatchingLabelled(cs, MonthlyLabel, k);
    MonthlyLabelMeaning(c1.date, c2.date);
  }

  /** Records in one daily bucket share month and day, whatever their years. */
  lemma DailyBucketIsOneDayOfYear(cs: seq<Consumption>, k: string, c1: Consumption, c2: Consumption)
    requires c1 in Matching(cs, DailyLabel, k) && c2 in Matching(cs, DailyLabel, k)
    ensures c1.date.month == c2.date.month && c1.date.day == c2.date.day
  {
    MatchingLabelled(cs, DailyLabel, k);
    DailyLabelMeaning(c1.date, c2.date);
  }

  /** No input, no buckets. */
  lemma AggregateEmpty(periodOf: CivilDate -> string)
    ensures Aggregate([], periodOf) == map[]
  {
  }

  // ---------------------------------------------------------------- worked examples

  lemma MonthlyExample()
    ensures MonthlyLabel(Date(2023, 7, 4)) == "Jul 2023"
  {
    assert NatToString(2023) == "2023" by {
      assert NatToString(2) == "2";
      assert NatToString(20) == "20";
      assert NatToString(202) == "202";
    }
  }

  lemma WeeklyExampleAcrossMonths()
    ensures WeeklyLabel(Date(2023, 6, 3)) == "May 28 - Jun 3"
  {
    assert DayNumber(Date(2023, 6, 3)) == 19511 && DayNumber(Date(2023, 5, 28)) == 19505 by {
      assert LeapYearsBefore(1970) == 477 && LeapYearsBefore(2023) == 490;
    }
    WeekLabelFrom(Date(2023, 6, 3), Date(2023, 5, 28), Date(2023, 6, 3));
    LabelTextMay28Jun3();
  }

  lemma LabelTextMay28Jun3()
    ensures MonthAbbrev(5) + " " + NatToString(28) + " - " + MonthAbbrev(6) + " " + NatToString(3) == "May 28 - Jun 3"
  {
    assert DigitChar(2) == '2' && DigitChar(8) == '8' && DigitChar(3) == '3';
    assert NatToString(2) == ['2'];
  }

  lemma WeeklyExampleWithinMonth()
    ensures WeeklyLabel(Date(2023, 6, 10)) == "Jun 4 - Jun 10"
  {
    assert DayNumber(Date(2023, 6, 10)) == 19518 && DayNumber(Date(2023, 6, 4)) == 19512 by {
      assert LeapYearsBefore(1970) == 477 && LeapYearsBefore(2023) == 490;
    }
    WeekLabelFrom(Date(2023, 6, 10), Date(2023, 6, 4), Date(2023, 6, 10));
    LabelTextJun4Jun10();
  }

  lemma LabelTextJun4Jun10()
    ensures MonthAbbrev(6) + " " + NatToString(4) + " - " + MonthAbbrev(6) + " " + NatToString(10) == "Jun 4 - Jun 10"
  {
    assert DigitChar(1) == '1' && DigitChar(0) == '0' && DigitChar(4) == '4';
    assert NatToString(1) == ['1'];
  }

  /** The weekly label from the week's bounds, once those are found from day numbers. */
  lemma WeekLabelFrom(d: CivilDate, start: CivilDate, end: CivilDate)
    requires DayNumber(start) == DayNumber(d) - Weekday(d)
    requires DayNumber(end) == DayNumber(start) + 6
    ensures WeeklyLabel(d) == MonthAbbrev(start.month) + " " + NatToString(start.day) + " - "
                              + MonthAbbrev(end.month) + " " + NatToString(end.day)
  {
    WeekBounds(d, start, end);
  }

  /** Two records a year apart on the same month and day share one daily bucket. */
  lemma DailyYearCollision(c1: Consumption, c2: Consumption)
    requires c1.date == Date(2022, 6, 3) && c2.date == Date(2023, 6, 3)
    ensures Aggregate([c1, c2], DailyLabel).Keys == {"Jun 3"}
    ensures Aggregate([c1, c2], DailyLabel)["Jun 3"].activeEnergy == [c1.activeEnergy, c2.activeEnergy]
  {
    assert DailyLabel(c1.date) == "Jun 3" && DailyLabel(c2.date) == "Jun 3";
    assert [c1, c2][..1] == [c1];
    assert [c1][..0] == [];
    assert Aggregate([], DailyLabel) == map[];
    var m1 := Aggregate([c1], DailyLabel);
    assert m1 == Step(map[], c1, DailyLabel);
    assert m1 == map["Jun 3" := Appended(EmptyBucket("Jun 3"), c1)];
    assert Aggregate([c1, c2], DailyLabel) == m1["Jun 3" := Appended(m1["Jun 3"], c2)];
  }

  /** A Sunday whose month still has six more days labels its week within that month. */
  lemma SundayWeekLabel(d: CivilDate)
    requires Weekday(d) == 0 && d.day + 6 <= DaysIn(d.month, d.year)
    ensures WeeklyLabel(d) == MonthAbbrev(d.month) + " " + NatToString(d.day) + " - "
                              + MonthAbbrev(d.month) + " " + NatToString(d.day + 6)
  {
    var end: CivilDate := Date(d.year, d.month, d.day + 6);
    assert DayNumber(end) == DayNumber(d) + 6;
    WeekLabelFrom(d, d, end);
  }

  /** Any year whose June 4 is a Sunday labels that week "Jun 4 - Jun 10". */
  lemma JuneFourthSunday(d: CivilDate)
    requires d.month == 6 && d.day == 4 && Weekday(d) == 0
    ensures WeeklyLabel(d) == "Jun 4 - Jun 10"
  {
    SundayWeekLabel(d);
    LabelTextJun4Jun10();
  }

  /** The week of 2017-06-04 and the week of 2023-06-04 carry the same label. */
  lemma WeeklyYearCollision()
    ensures WeeklyLabel(Date(2017, 6, 4)) == WeeklyLabel(Date(2023, 6, 4)) == "Jun 4 - Jun 10"
  {
    assert Weekday(Date(2017, 6, 4)) == 0 by {
      assert LeapYearsBefore(1970) == 477 && LeapYearsBefore(2017) == 489;
      assert DayNumber(Date(2017, 6, 4)) == 17321;
    }
    assert Weekday(Date(2023, 6, 4)) == 0 by {
      assert LeapYearsBefore(1970) == 477 && LeapYearsBefore(2023) == 490;
      assert DayNumber(Date(2023, 6, 4)) == 19512;
    }
    JuneFourthSunday(Date(2017, 6, 4));
    JuneFourthSunday(Date(2023, 6, 4));
  }
}

/**
  The per-meter pipeline (services/consumption_service.go): the period kind is looked up
  once; then, for every requested meter, a task fetches the meter's records, aggregates
  them, resolves the meter's address, flattens the buckets and merges its entry into the
  shared response. A failed fetch or a failed address lookup drops the meter.

  The tasks run concurrently in the Go service. Their work is independent except for the
  merge, done under a lock, so the model runs them one after another in an arbitrary
  completion order (a ghost out-parameter records the one taken). The traversal of the
  bucket map is arbitrary in the same way, and is recorded per task.
*/
module ConsumptionService {
  import opened Wrappers
  import opened Civil
  import opened Model
  import opened Aggregation
  import opened AddressAdapter

  /** One element of data_graph. */
  datatype MeterEntry = MeterEntry(
    meterId: int,
    address: string,
    active: seq<Metric>,
    reactiveInductive: seq<Metric>,
    reactiveCapacitive: seq<Metric>,
    exported: seq<Metric>)

  /** The result map: the top-level "period" list and "data_graph". */
  datatype Response = Response(period: seq<string>, dataGraph: seq<MeterEntry>)

  /** What one task hands to the merge: its own label list and its entry. */
  datatype Contribution = Contribution(periods: seq<string>, entry: MeterEntry)

  /** GetConsumptionByFilters(meterID, startDate, endDate): the records or an error. */
  type Repository = (int, string, string) -> Result<seq<Consumption>, string>

  /** The address service's answer for a meter (its cache is not shared into this model). */
  type AddressLookup = int -> Result<Address, string>

  const InvalidKindPrefix: string := "invalid kind_period: "

  function EntrySeries(e: MeterEntry, s: Series): seq<Metric>
  {
    match s
    case Active => e.active
    case ReactiveInductive => e.reactiveInductive
    case ReactiveCapacitive => e.reactiveCapacitive
    case Exported => e.exported
  }

  // ---------------------------------------------------------------- strategy lookup

  /** The strategies map: exactly the three known kinds select a strategy. */
  function StrategyFor(kindPeriod: string): (r: Option<Strategy>)
    ensures r == Some(Monthly) <==> kindPeriod == "monthly"
    ensures r == Some(Weekly) <==> kindPeriod == "weekly"
    ensures r == Some(Daily) <==> kindPeriod == "daily"
    ensures r.None? <==> kindPeriod !in {"monthly", "weekly", "daily"}
  {
    if kindPeriod == "monthly" then Some(Monthly)
    else if kindPeriod == "weekly" then Some(Weekly)
    else if kindPeriod == "daily" then Some(Daily)
    else None
  }

  // ---------------------------------------------------------------- flatten

  predicate Distinct(order: seq<string>)
  {
    forall i, j :: 0 <= i < j < |order| ==> order[i] != order[j]
  }

  /** order visits every key of the set exactly once. */
  predicate Enumerates(order: seq<string>, keys: set<string>)
  {
    Distinct(order) &&
    (forall i :: 0 <= i < |order| ==> order[i] in keys) &&
    (forall k :: k in keys ==> k in order)
  }

  /** The buckets' label lists, concatenated in the order visited. */
  function FlatPeriods(agg: map<string, AggregatedConsumption>, order: seq<string>): seq<string>
    requires forall i :: 0 <= i < |order| ==> order[i] in agg
  {
    if order == [] then [] else FlatPeriods(agg, order[..|order| - 1]) + agg[order[|order| - 1]].period
  }

  /** The buckets' series s, concatenated in the order visited. */
  function FlatValues(agg: map<string, AggregatedConsumption>, order: seq<string>, s: Series): seq<Metric>
    requires forall i :: 0 <= i < |order| ==> order[i] in agg
  {
    if order == [] then [] else FlatValues(agg, order[..|order| - 1], s) + Values(agg[order[|order| - 1]], s)
  }

  /**
    The range loop over the aggregation map: each bucket's label list and series are
    appended to the local slices. The map's iteration order is not specified; `order`
    records the one taken.
  */
  method Flatten(aggregatedData: map<string, AggregatedConsumption>)
    returns (localPeriods: seq<string>, active: seq<Metric>, reactiveInductive: seq<Metric>,
             reactiveCapacitive: seq<Metric>, exported: seq<Metric>, ghost order: seq<string>)
    ensures Enumerates(order, aggregatedData.Keys)
    ensures localPeriods == FlatPeriods(aggregatedData, order)
    ensures active == FlatValues(aggregatedData, order, Active)
    ensures reactiveInductive == FlatValues(aggregatedData, order, ReactiveInductive)
    ensures reactiveCapacitive == FlatValues(aggregatedData, order, ReactiveCapacitive)
    ensures exported == FlatValues(aggregatedData, order, Exported)
  {
    localPeriods, active, reactiveInductive, reactiveCapacitive, exported := [], [], [], [], [];
    order := [];
    var remaining := aggregatedData.Keys;
    while remaining != {}
      invariant remaining <= aggregatedData.Keys
      invariant Distinct(order)
      invariant forall k :: k in order <==> k in aggregatedData && k !in remaining
      invariant localPeriods == FlatPeriods(aggregatedData, order)
      invariant active == FlatValues(aggregatedData, order, Active)
      invariant reactiveInductive == FlatValues(aggregatedData, order, ReactiveInductive)
      invariant reactiveCapacitive == FlatValues(aggregatedData, order, ReactiveCapacitive)
      invariant exported == FlatValues(aggregatedData, order, Exported)
      decreases |remaining|
    {
      var k :| k in remaining;
      var aggData := aggregatedData[k];
      localPeriods := localPeriods + aggData.period;
      active := active + aggData.activeEnergy;
      reactiveInductive := reactiveInductive + aggData.reactiveInductive;
      reactiveCapacitive := reactiveCapacitive + aggData.reactiveCapacitive;
      exported := exported + aggData.exportedEnergy;
      assert (order + [k])[..|order|] == order;
      order := order + [k];
      remaining := remaining - {k};
    }
  }

  /** The records in the order Flatten visits them: the records of each label in turn. */
  function Grouped(cs: seq<Consumption>, periodOf: CivilDate -> string, order: seq<string>): seq<Consumption>
  {
    if order == [] then []
    else Grouped(cs, periodOf, order[..|order| - 1]) + Matching(cs, periodOf, order[|order| - 1])
  }

  /** Flattening an aggregation yields the labels in the order visited, one each. */
  lemma {:induction false} FlatPeriodsOfAggregate(cs: seq<Consumption>, periodOf: CivilDate -> string, order: seq<string>)
    requires forall i :: 0 <= i < |order| ==> order[i] in Aggregate(cs, periodOf)
    ensures FlatPeriods(Aggregate(cs, periodOf), order) == order
  {
    if order != [] {
      var init, k := order[..|order| - 1], order[|order| - 1];
      FlatPeriodsOfAggregate(cs, periodOf, init);
      BucketShape(cs, periodOf, k, Active);
      assert order == init + [k];
    }
  }

  /** Flattening an aggregation yields the readings of the records regrouped by label. */
  lemma {:induction false} FlatValuesOfAggregate(cs: seq<Consumption>, periodOf: CivilDate -> string,
                                                order: seq<string>, s: Series)
    requires forall i :: 0 <= i < |order| ==> order[i] in Aggregate(cs, periodOf)
    ensures FlatValues(Aggregate(cs, periodOf), order, s) == Readings(Grouped(cs, periodOf, order), s)
  {
    if order != [] {
      var init, k := order[..|order| - 1], order[|order| - 1];
      FlatValuesOfAggregate(cs, periodOf, init, s);
      BucketShape(cs, periodOf, k, s);
      ReadingsConcat(Grouped(cs, periodOf, init), Matching(cs, periodOf, k), s);
    }
  }

  lemma {:induction false} GroupedOfNothing(periodOf: CivilDate -> string, order: seq<string>)
    ensures Grouped([], periodOf, order) == []
  {
    if order != [] {
      GroupedOfNothing(periodOf, order[..|order| - 1]);
    }
  }

  lemma DistinctPrefix(order: seq<string>)
    requires Distinct(order) && order != []
    ensures Distinct(order[..|order| - 1])
    ensures order[|order| - 1] !in order[..|order| - 1]
  {
  }

  /** One more record adds it once to the regrouped list, when its label is visited. */
  lemma {:induction false} GroupedSnoc(cs: seq<Consumption>, c: Consumption, periodOf: CivilDate -> string,
                                      order: seq<string>)
    requires Distinct(order)
    ensures multiset(Grouped(cs + [c], periodOf, order)) ==
      multiset(Grouped(cs, periodOf, order)) + (if periodOf(c.date) in order then multiset{c} else multiset{})
  {
    if order != [] {
      var init, k := order[..|order| - 1], order[|order| - 1];
      var l := periodOf(c.date);
      DistinctPrefix(order);
      GroupedSnoc(cs, c, periodOf, init);
      MatchingSnoc(cs, c, periodOf, k);
      InSnoc(order, l);
      var a, b := Grouped(cs + [c], periodOf, init), Grouped(cs, periodOf, init);
      var ma, mb := Matching(cs + [c], periodOf, k), Matching(cs, periodOf, k);
      assert multiset(ma) == multiset(mb) + (if l == k then multiset{c} else multiset{}) by {
        assert ma == mb + (if l == k then [c] else []);
      }
      CountSnoc(multiset(a), multiset(b), multiset(ma), multiset(mb), c, l in init, l == k);
    }
  }

  /** l is in a non-empty list exactly when it is in the front part or is the last element. */
  lemma InSnoc(order: seq<string>, l: string)
    requires order != []
    ensures l in order <==> l in order[..|order| - 1] || l == order[|order| - 1]
  {
    assert order == order[..|order| - 1] + [order[|order| - 1]];
  }

  /** Two disjoint chances to add c add it at most once. */
  lemma CountSnoc<T>(a: multiset<T>, b: multiset<T>, ma: multiset<T>, mb: multiset<T>, c: T, first: bool, second: bool)
    requires !(first && second)
    requires a == b + (if first then multiset{c} else multiset{})
    requires ma == mb + (if second then multiset{c} else multiset{})
    ensures a + ma == (b + mb) + (if first || second then multiset{c} else multiset{})
  {
  }

  lemma MatchingSnoc(cs: seq<Consumption>, c: Consumption, periodOf: CivilDate -> string, k: string)
    ensures Matching(cs + [c], periodOf, k) ==
      Matching(cs, periodOf, k) + (if periodOf(c.date) == k then [c] else [])
  {
    assert (cs + [c])[..|cs|] == cs;
  }

  /** Visiting every label present regroups the records without losing or adding one. */
  lemma {:induction false} GroupedIsPermutation(cs: seq<Consumption>, periodOf: CivilDate -> string,
                                               order: seq<string>)
    requires Distinct(order)
    requires forall k :: k in Labels(cs, periodOf) ==> k in order
    ensures multiset(Grouped(cs, periodOf, order)) == multiset(cs)
  {
    if cs == [] {
      GroupedOfNothing(periodOf, order);
    } else {
      var init, c := cs[..|cs| - 1], cs[|cs| - 1];
      assert Labels(cs, periodOf) == Labels(init, periodOf) + {periodOf(c.date)};
      GroupedIsPermutation(init, periodOf, order);
      assert cs == init + [c];
      GroupedSnoc(init, c, periodOf, order);
    }
  }

  lemma {:induction false} LabelsEmpty(cs: seq<Consumption>, periodOf: CivilDate -> string)
    ensures Labels(cs, periodOf) == {} <==> cs == []
  {
    if cs != [] {
      assert periodOf(cs[|cs| - 1].date) in Labels(cs, periodOf);
    }
  }

  // ---------------------------------------------------------------- one task

  predicate Survives(meterId: int, startDate: string, endDate: string,
                     repository: Repository, addressService: AddressLookup)
  {
    repository(meterId, startDate, endDate).Ok? && addressService(meterId).Ok?
  }

  /** The traversal order a task used fits its aggregation. */
  predicate OrderFits(order: seq<string>, cs: seq<Consumption>, strategy: Strategy)
  {
    Enumerates(order, Aggregate(cs, LabelOf(strategy)).Keys)
  }

  /** The contribution of a meter whose fetch and lookup succeeded, under a traversal order. */
  function ContributionFor(meterId: int, address: Address, cs: seq<Consumption>, strategy: Strategy,
                           order: seq<string>): Contribution
    requires OrderFits(order, cs, strategy)
  {
    var agg := Aggregate(cs, LabelOf(strategy));
    Contribution(FlatPeriods(agg, order),
                 MeterEntry(meterId, address.address,
                            FlatValues(agg, order, Active), FlatValues(agg, order, ReactiveInductive),
                            FlatValues(agg, order, ReactiveCapacitive), FlatValues(agg, order, Exported)))
  }

  /** The task's outcome: nothing for a dropped meter. */
  function Outcome(meterId: int, startDate: string, endDate: string, strategy: Strategy,
                   repository: Repository, addressService: AddressLookup, order: seq<string>)
    : Option<Contribution>
    requires Survives(meterId, startDate, endDate, repository, addressService) ==>
      OrderFits(order, repository(meterId, startDate, endDate).value, strategy)
  {
    if Survives(meterId, startDate, endDate, repository, addressService)
    then Some(ContributionFor(meterId, addressService(meterId).value,
                              repository(meterId, startDate, endDate).value, strategy, order))
    else None
  }

  /** The body of one goroutine up to, not including, the locked merge. */
  method ProcessMeter(meterId: int, startDate: string, endDate: string, strategy: Strategy,
                      repository: Repository, addressService: AddressLookup)
    returns (contribution: Option<Contribution>, ghost order: seq<string>)
    ensures Survives(meterId, startDate, endDate, repository, addressService) ==>
      OrderFits(order, repository(meterId, startDate, endDate).value, strategy)
    ensures contribution == Outcome(meterId, startDate, endDate, strategy, repository, addressService, order)
  {
    order := [];
    var fetched := repository(meterId, startDate, endDate);
    if fetched.Err? {
      return None, order;
    }
    var consumptions := fetched.value;
    var aggregatedData := AggregateWith(strategy, consumptions);
    var lookup := addressService(meterId);
    if lookup.Err? {
      return None, order;
    }
    var address := lookup.value;
    var localPeriods, active, reactiveInductive, reactiveCapacitive, exported;
    localPeriods, active, reactiveInductive, reactiveCapacitive, exported, order := Flatten(aggregatedData);
    contribution := Some(Contribution(localPeriods,
      MeterEntry(meterId, address.address, active, reactiveInductive, reactiveCapacitive, exported)));
  }

  /**
    What a contribution holds: its label list visits the meter's labels once each (empty
    exactly when the meter has no records), its entry carries the meter id and the address
    text, and all four series read one rearrangement of the fetched records, grouped by
    label, so they have equal length, the number of records.
  */
  lemma ContributionShape(meterId: int, address: Address, cs: seq<Consumption>, strategy: Strategy,
                          order: seq<string>)
    requires OrderFits(order, cs, strategy)
    ensures ContributionFor(meterId, address, cs, strategy, order).periods == order
    ensures Enumerates(order, Labels(cs, LabelOf(strategy)))
    ensures order == [] <==> cs == []
    ensures ContributionFor(meterId, address, cs, strategy, order).entry.meterId == meterId
    ensures ContributionFor(meterId, address, cs, strategy, order).entry.address == address.address
    ensures multiset(Grouped(cs, LabelOf(strategy), order)) == multiset(cs)
    ensures forall s: Series :: EntrySeries(ContributionFor(meterId, address, cs, strategy, order).entry, s)
                                == Readings(Grouped(cs, LabelOf(strategy), order), s)
    ensures forall s: Series ::
      |EntrySeries(ContributionFor(meterId, address, cs, strategy, order).entry, s)| == |cs|
  {
    var periodOf := LabelOf(strategy);
    var agg := Aggregate(cs, periodOf);
    assert agg.Keys == Labels(cs, periodOf) by {
      AggregateCharacterization(cs, periodOf);
    }
    assert forall i :: 0 <= i < |order| ==> order[i] in agg;
    FlatPeriodsOfAggregate(cs, periodOf, order);
    LabelsEmpty(cs, periodOf);
    GroupedIsPermutation(cs, periodOf, order);
    var e := ContributionFor(meterId, address, cs, strategy, order).entry;
    forall s: Series
      ensures EntrySeries(e, s) == Readings(Grouped(cs, periodOf, order), s)
      ensures |EntrySeries(e, s)| == |cs|
    {
      EntrySeriesOf(meterId, address, cs, strategy, order, s);
      FlatValuesOfAggregate(cs, periodOf, order, s);
      assert |multiset(Grouped(cs, periodOf, order))| == |multiset(cs)|;
    }
  }

  lemma EntrySeriesOf(meterId: int, address: Address, cs: seq<Consumption>, strategy: Strategy,
                      order: seq<string>, s: Series)
    requires OrderFits(order, cs, strategy)
    ensures EntrySeries(ContributionFor(meterId, address, cs, strategy, order).entry, s)
            == FlatValues(Aggregate(cs, LabelOf(strategy)), order, s)
  {
  }

  // ---------------------------------------------------------------- the merge

  /** One task's turn at the lock: `period` is set only while empty; the entry is appended. */
  function Merge(r: Response, outcome: Option<Contribution>): Response
  {
    match outcome
    case None => r
    case Some(c) => Response(if |r.period| == 0 then c.periods else r.period, r.dataGraph + [c.entry])
  }

  /** The response after the tasks merged in the given order. */
  function Merged(outcomes: seq<Option<Contribution>>): Response
  {
    if outcomes == [] then Response([], [])
    else Merge(Merged(outcomes[..|outcomes| - 1]), outcomes[|outcomes| - 1])
  }

  /** Reference: the label list of the first merged contribution that has any. */
  function FirstPeriods(outcomes: seq<Option<Contribution>>): seq<string>
  {
    if outcomes == [] then []
    else if outcomes[0].Some? && outcomes[0].value.periods != [] then outcomes[0].value.periods
    else FirstPeriods(outcomes[1..])
  }

  /** Reference: the entries of the contributions, in merge order. */
  function Entries(outcomes: seq<Option<Contribution>>): seq<MeterEntry>
  {
    if outcomes == [] then []
    else (if outcomes[0].Some? then [outcomes[0].value.entry] else []) + Entries(outcomes[1..])
  }

  lemma {:induction false} FirstPeriodsConcat(a: seq<Option<Contribution>>, b: seq<Option<Contribution>>)
    ensures FirstPeriods(a + b) == if FirstPeriods(a) != [] then FirstPeriods(a) else FirstPeriods(b)
  {
    if a == [] {
      assert a + b == b;
    } else {
      assert (a + b)[0] == a[0];
      assert (a + b)[1..] == a[1..] + b;
      FirstPeriodsConcat(a[1..], b);
    }
  }

  lemma {:induction false} EntriesConcat(a: seq<Option<Contribution>>, b: seq<Option<Contribution>>)
    ensures Entries(a + b) == Entries(a) + Entries(b)
  {
    if a == [] {
      assert a + b == b;
    } else {
      assert (a + b)[0] == a[0];
      assert (a + b)[1..] == a[1..] + b;
      EntriesConcat(a[1..], b);
    }
  }

  /**
    The merge rule: data_graph lists the entries of the contributing tasks in completion
    order, and `period` is the label list of the first of them that has any labels.
  */
  lemma {:induction false} MergedMeaning(outcomes: seq<Option<Contribution>>)
    ensures Merged(outcomes).period == FirstPeriods(outcomes)
    ensures Merged(outcomes).dataGraph == Entries(outcomes)
  {
    if outcomes != [] {
      var init, o := outcomes[..|outcomes| - 1], outcomes[|outcomes| - 1];
      MergedMeaning(init);
      assert outcomes == init + [o];
      FirstPeriodsConcat(init, [o]);
      EntriesConcat(init, [o]);
      assert [o][1..] == [];
    }
  }

  /** Once set, `period` is never overwritten by later tasks. */
  lemma PeriodNeverOverwritten(done: seq<Option<Contribution>>, later: seq<Option<Contribution>>)
    requires Merged(done).period != []
    ensures Merged(done + later).period == Merged(done).period
  {
    MergedMeaning(done);
    MergedMeaning(done + later);
    FirstPeriodsConcat(done, later);
  }

  // ---------------------------------------------------------------- the whole request

  /** The indices 0 .. n-1, in order. */
  function Range(n: nat): (r: seq<nat>)
    ensures |r| == n
    ensures forall i :: 0 <= i < n ==> r[i] == i
  {
    if n == 0 then [] else Range(n - 1) + [n - 1]
  }

  /** A completion order: every dispatched task (by index) exactly once. */
  predicate IsCompletionOrder(completion: seq<nat>, n: nat)
  {
    multiset(completion) == multiset(Range(n))
  }

  predicate InBounds(idx: seq<nat>, n: nat)
  {
    forall i :: 0 <= i < |idx| ==> idx[i] < n
  }

  /** Every surviving task's recorded traversal order fits its aggregation. */
  predicate OrdersFit(meterIds: seq<int>, completion: seq<nat>, orders: seq<seq<string>>,
                      startDate: string, endDate: string, strategy: Strategy,
                      repository: Repository, addressService: AddressLookup)
  {
    InBounds(completion, |meterIds|) && |orders| == |completion| &&
    forall i :: 0 <= i < |completion| ==>
      (Survives(meterIds[completion[i]], startDate, endDate, repository, addressService) ==>
        OrderFits(orders[i], repository(meterIds[completion[i]], startDate, endDate).value, strategy))
  }

  /** The tasks' outcomes in completion order. */
  function Outcomes(meterIds: seq<int>, completion: seq<nat>, orders: seq<seq<string>>,
                    startDate: string, endDate: string, strategy: Strategy,
                    repository: Repository, addressService: AddressLookup): (r: seq<Option<Contribution>>)
    requires OrdersFit(meterIds, completion, orders, startDate, endDate, strategy, repository, addressService)
    ensures |r| == |completion|
  {
    if completion == [] then []
    else
      var n := |completion| - 1;
      Outcomes(meterIds, completion[..n], orders[..n], startDate, endDate, strategy, repository, addressService)
        + [Outcome(meterIds[completion[n]], startDate, endDate, strategy, repository, addressService, orders[n])]
  }

  /**
    GetConsumptionByPeriod. An unknown kind is an error before any task starts (no task
    completes). Otherwise every meter is processed once, in some completion order, and
    the response is the merge of their outcomes in that order.
  */
  method GetConsumptionByPeriod(meterIds: seq<int>, startDate: string, endDate: string, kindPeriod: string,
                                repository: Repository, addressService: AddressLookup)
    returns (result: Option<Response>, err: Option<string>,
             ghost completion: seq<nat>, ghost orders: seq<seq<string>>)
    ensures StrategyFor(kindPeriod).None? ==>
      result == None && err == Some(InvalidKindPrefix + kindPeriod) && completion == []
    ensures StrategyFor(kindPeriod).Some? ==>
      err == None && result.Some? &&
      IsCompletionOrder(completion, |meterIds|) &&
      OrdersFit(meterIds, completion, orders, startDate, endDate, StrategyFor(kindPeriod).value,
                repository, addressService) &&
      result.value == Merged(Outcomes(meterIds, completion, orders, startDate, endDate,
                                      StrategyFor(kindPeriod).value, repository, addressService))
  {
    completion, orders := [], [];
    var found := StrategyFor(kindPeriod);
    if found.None? {
      return None, Some(InvalidKindPrefix + kindPeriod), completion, orders;
    }
    var strategy := found.value;
    var periods: seq<string> := [];
    var dataGraph: seq<MeterEntry> := [];
    var pending := Range(|meterIds|);
    while pending != []
      invariant multiset(completion) + multiset(pending) == multiset(Range(|meterIds|))
      invariant InBounds(pending, |meterIds|)
      invariant OrdersFit(meterIds, completion, orders, startDate, endDate, strategy, repository, addressService)
      invariant Response(periods, dataGraph) ==
        Merged(Outcomes(meterIds, completion, orders, startDate, endDate, strategy, repository, addressService))
      decreases |pending|
    {
      var p :| 0 <= p < |pending|;
      var j := pending[p];
      var contribution, order := ProcessMeter(meterIds[j], startDate, endDate, strategy, repository, addressService);
      match contribution {
        case None =>
        case Some(c) =>
          if |periods| == 0 {
            periods := c.periods;
          }
          dataGraph := dataGraph + [c.entry];
      }
      OutcomesSnoc(meterIds, completion, orders, j, order, startDate, endDate, strategy, repository, addressService);
      PickOne(completion, pending, p, |meterIds|);
      completion, orders := completion + [j], orders + [order];
      pending := pending[..p] + pending[p + 1..];
    }
    assert multiset(pending) == multiset{};
    return Some(Response(periods, dataGraph)), None, completion, orders;
  }

  /** One more completed task extends the outcomes by its own. */
  lemma OutcomesSnoc(meterIds: seq<int>, completion: seq<nat>, orders: seq<seq<string>>, j: nat, order: seq<string>,
                     startDate: string, endDate: string, strategy: Strategy,
                     repository: Repository, addressService: AddressLookup)
    requires OrdersFit(meterIds, completion, orders, startDate, endDate, strategy, repository, addressService)
    requires j < |meterIds|
    requires Survives(meterIds[j], startDate, endDate, repository, addressService) ==>
      OrderFits(order, repository(meterIds[j], startDate, endDate).value, strategy)
    ensures OrdersFit(meterIds, completion + [j], orders + [order], startDate, endDate, strategy,
                      repository, addressService)
    ensures Outcomes(meterIds, completion + [j], orders + [order], startDate, endDate, strategy,
                     repository, addressService)
      == Outcomes(meterIds, completion, orders, startDate, endDate, strategy, repository, addressService)
         + [Outcome(meterIds[j], startDate, endDate, strategy, repository, addressService, order)]
  {
    assert (completion + [j])[..|completion|] == completion;
    assert (orders + [order])[..|orders|] == orders;
  }

  /** Taking the task at position p out of the pending ones keeps every task counted once. */
  lemma PickOne(completion: seq<nat>, pending: seq<nat>, p: nat, n: nat)
    requires p < |pending| && InBounds(pending, n)
    ensures multiset(completion + [pending[p]]) + multiset(pending[..p] + pending[p + 1..])
            == multiset(completion) + multiset(pending)
    ensures InBounds(pending[..p] + pending[p + 1..], n)
  {
    assert pending == pending[..p] + [pending[p]] + pending[p + 1..];
  }

  // ---------------------------------------------------------------- what the response holds

  function Ids(entries: seq<MeterEntry>): (r: seq<int>)
    ensures |r| == |entries|
  {
    if entries == [] then [] else Ids(entries[..|entries| - 1]) + [entries[|entries| - 1].meterId]
  }

  /** Reference: the requested meter ids whose fetch and lookup succeed, in request order. */
  function Survivors(meterIds: seq<int>, startDate: string, endDate: string,
                     repository: Repository, addressService: AddressLookup): seq<int>
  {
    if meterIds == [] then []
    else
      var last := meterIds[|meterIds| - 1];
      Survivors(meterIds[..|meterIds| - 1], startDate, endDate, repository, addressService)
        + (if Survives(last, startDate, endDate, repository, addressService) then [last] else [])
  }

  /** Each requested id occurs among the survivors as often as requested if it survives, else never. */
  lemma {:induction false} SurvivorsCount(meterIds: seq<int>, startDate: string, endDate: string,
                                         repository: Repository, addressService: AddressLookup, x: int)
    ensures multiset(Survivors(meterIds, startDate, endDate, repository, addressService))[x] ==
      if Survives(x, startDate, endDate, repository, addressService) then multiset(meterIds)[x] else 0
  {
    if meterIds != [] {
      var init, last := meterIds[..|meterIds| - 1], meterIds[|meterIds| - 1];
      SurvivorsCount(init, startDate, endDate, repository, addressService, x);
      assert meterIds == init + [last];
    }
  }

  /** The list each task index contributes to a gathered id list. */
  function SurvivorOf(meterIds: seq<int>, startDate: string, endDate: string,
                      repository: Repository, addressService: AddressLookup): nat -> seq<int>
  {
    (j: nat) => if j < |meterIds| && Survives(meterIds[j], startDate, endDate, repository, addressService)
         then [meterIds[j]] else []
  }

  /** The lists of the given indices, concatenated in that order. */
  function Gather(idx: seq<nat>, g: nat -> seq<int>): seq<int>
  {
    if idx == [] then [] else Gather(idx[..|idx| - 1], g) + g(idx[|idx| - 1])
  }

  /** The entries of data_graph belong to the surviving tasks, in completion order. */
  lemma {:induction false} EntryIdsFollowCompletion(meterIds: seq<int>, completion: seq<nat>, orders: seq<seq<string>>,
                                                   startDate: string, endDate: string, strategy: Strategy,
                                                   repository: Repository, addressService: AddressLookup)
    requires OrdersFit(meterIds, completion, orders, startDate, endDate, strategy, repository, addressService)
    ensures Ids(Merged(Outcomes(meterIds, completion, orders, startDate, endDate, strategy, repository,
                                addressService)).dataGraph)
            == Gather(completion, SurvivorOf(meterIds, startDate, endDate, repository, addressService))
  {
    if completion != [] {
      var n := |completion| - 1;
      var prefix := Outcomes(meterIds, completion[..n], orders[..n], startDate, endDate, strategy,
                             repository, addressService);
      var outcomes := Outcomes(meterIds, completion, orders, startDate, endDate, strategy, repository, addressService);
      EntryIdsFollowCompletion(meterIds, completion[..n], orders[..n], startDate, endDate, strategy,
                               repository, addressService);
      assert outcomes[..n] == prefix;
      var m := Merged(prefix);
      assert Merged(outcomes) == Merge(m, outcomes[n]);
      if outcomes[n].Some? {
        assert (m.dataGraph + [outcomes[n].value.entry])[..|m.dataGraph|] == m.dataGraph;
      }
    }
  }

  lemma {:induction false} GatherConcat(u: seq<nat>, v: seq<nat>, g: nat -> seq<int>)
    ensures Gather(u + v, g) == Gather(u, g) + Gather(v, g)
    decreases |v|
  {
    if v == [] {
      assert u + v == u;
    } else {
      var init := v[..|v| - 1];
      assert (u + v)[..|u + v| - 1] == u + init;
      GatherConcat(u, init, g);
    }
  }

  /** Gathering is insensitive to the order of the indices, up to the order of the result. */
  lemma {:induction false} GatherPermutation(a: seq<nat>, b: seq<nat>, g: nat -> seq<int>)
    requires multiset(a) == multiset(b)
    ensures multiset(Gather(a, g)) == multiset(Gather(b, g))
    decreases |a|
  {
    if a != [] {
      var n := |a| - 1;
      var x := a[n];
      assert a == a[..n] + [x];
      assert x in multiset(b);
      var p :| 0 <= p < |b| && b[p] == x;
      var b1, b2 := b[..p], b[p + 1..];
      SplitAt(b, p);
      assert multiset(a[..n]) == multiset(b1 + b2) by {
        assert multiset(a) == multiset(a[..n]) + multiset{x};
        assert multiset(b) == multiset(b1) + multiset{x} + multiset(b2);
        assert multiset(b1 + b2) == multiset(b1) + multiset(b2);
        CancelOne(multiset(a[..n]), multiset(b1 + b2), x);
      }
      GatherPermutation(a[..n], b1 + b2, g);
      GatherConcat(a[..n], [x], g);
      GatherConcat(b1, b2, g);
      GatherConcat(b1, [x], g);
      GatherConcat(b1 + [x], b2, g);
      assert [x][..0] == [];
      Rearranged(Gather(a[..n], g), g(x), Gather(b1, g), Gather(b2, g));
    }
  }

  lemma Rearranged<T>(a0: seq<T>, x: seq<T>, b1: seq<T>, b2: seq<T>)
    requires multiset(a0) == multiset(b1 + b2)
    ensures multiset(a0 + x) == multiset(b1 + x + b2)
  {
    assert multiset(b1 + b2) == multiset(b1) + multiset(b2);
    assert multiset(b1 + x + b2) == multiset(b1) + multiset(x) + multiset(b2);
  }

  lemma SplitAt<T>(b: seq<T>, p: nat)
    requires p < |b|
    ensures b == b[..p] + [b[p]] + b[p + 1..]
  {
  }

  lemma CancelOne<T>(u: multiset<T>, v: multiset<T>, x: T)
    requires u + multiset{x} == v + multiset{x}
    ensures u == v
  {
    assert forall y :: u[y] == (u + multiset{x})[y] - multiset{x}[y];
    assert forall y :: v[y] == (v + multiset{x})[y] - multiset{x}[y];
  }

  lemma {:induction false} GatherOfRange(meterIds: seq<int>, m: nat, startDate: string, endDate: string,
                                        repository: Repository, addressService: AddressLookup)
    requires m <= |meterIds|
    ensures Gather(Range(m), SurvivorOf(meterIds, startDate, endDate, repository, addressService)) ==
      Survivors(meterIds[..m], startDate, endDate, repository, addressService)
  {
    if m > 0 {
      GatherOfRange(meterIds, m - 1, startDate, endDate, repository, addressService);
      assert Range(m)[..m - 1] == Range(m - 1);
      assert meterIds[..m][..m - 1] == meterIds[..m - 1];
    }
  }

  /**
    data_graph holds one entry per requested meter id whose fetch and address lookup
    succeed (an id requested twice gets two), and none for the others, whatever the
    completion order.
  */
  lemma DataGraphHoldsSurvivors(meterIds: seq<int>, completion: seq<nat>, orders: seq<seq<string>>,
                                startDate: string, endDate: string, strategy: Strategy,
                                repository: Repository, addressService: AddressLookup)
    requires IsCompletionOrder(completion, |meterIds|)
    requires OrdersFit(meterIds, completion, orders, startDate, endDate, strategy, repository, addressService)
    ensures multiset(Ids(Merged(Outcomes(meterIds, completion, orders, startDate, endDate, strategy, repository,
                                         addressService)).dataGraph))
            == multiset(Survivors(meterIds, startDate, endDate, repository, addressService))
  {
    var g := SurvivorOf(meterIds, startDate, endDate, repository, addressService);
    EntryIdsFollowCompletion(meterIds, completion, orders, startDate, endDate, strategy, repository, addressService);
    GatherOfRange(meterIds, |meterIds|, startDate, endDate, repository, addressService);
    assert meterIds[..|meterIds|] == meterIds;
    GatherPermutation(completion, Range(|meterIds|), g);
  }

  /** An entry as the task of a surviving meter builds it. */
  ghost predicate EntryFits(e: MeterEntry, startDate: string, endDate: string,
                            repository: Repository, addressService: AddressLookup)
  {
    Survives(e.meterId, startDate, endDate, repository, addressService) &&
    e.address == addressService(e.meterId).value.address &&
    exists g: seq<Consumption> :: ReadsRearranged(e, g, repository(e.meterId, startDate, endDate).value)
  }

  /** The entry's four series read the records g, which rearrange cs. */
  ghost predicate ReadsRearranged(e: MeterEntry, g: seq<Consumption>, cs: seq<Consumption>)
  {
    multiset(g) == multiset(cs) && forall s: Series :: EntrySeries(e, s) == Readings(g, s)
  }

  /**
    Every entry of data_graph is its meter's: the meter survived, the address is the
    text its lookup returned, and the four series read one rearrangement of the records
    fetched for it. The address part rests on AddressLookup being a function of the meter
    id alone. In the Go service two tasks for a repeated id share the cache and the
    remote service, so one may get the remote address while the other gets the fallback.
  */
  lemma {:induction false} EntriesFit(meterIds: seq<int>, completion: seq<nat>, orders: seq<seq<string>>,
                                     startDate: string, endDate: string, strategy: Strategy,
                                     repository: Repository, addressService: AddressLookup)
    requires OrdersFit(meterIds, completion, orders, startDate, endDate, strategy, repository, addressService)
    ensures forall e :: e in Merged(Outcomes(meterIds, completion, orders, startDate, endDate, strategy,
                                             repository, addressService)).dataGraph
                        ==> EntryFits(e, startDate, endDate, repository, addressService)
  {
    if completion != [] {
      var n := |completion| - 1;
      var prefix := Outcomes(meterIds, completion[..n], orders[..n], startDate, endDate, strategy,
                             repository, addressService);
      var outcomes := Outcomes(meterIds, completion, orders, startDate, endDate, strategy, repository, addressService);
      EntriesFit(meterIds, completion[..n], orders[..n], startDate, endDate, strategy, repository, addressService);
      assert outcomes[..n] == prefix;
      var m := meterIds[completion[n]];
      OutcomeFits(m, startDate, endDate, strategy, repository, addressService, orders[n]);
      MergedEntries(outcomes);
    }
  }

  /** Merging one more outcome adds its entry, if any, at the back of data_graph. */
  lemma MergedEntries(outcomes: seq<Option<Contribution>>)
    requires outcomes != []
    ensures var o := outcomes[|outcomes| - 1];
      Merged(outcomes).dataGraph
        == Merged(outcomes[..|outcomes| - 1]).dataGraph + (if o.Some? then [o.value.entry] else [])
  {
  }

  /** The entry a surviving task contributes fits its meter. */
  lemma OutcomeFits(meterId: int, startDate: string, endDate: string, strategy: Strategy,
                    repository: Repository, addressService: AddressLookup, order: seq<string>)
    requires Survives(meterId, startDate, endDate, repository, addressService) ==>
      OrderFits(order, repository(meterId, startDate, endDate).value, strategy)
    ensures var o := Outcome(meterId, startDate, endDate, strategy, repository, addressService, order);
      o.Some? ==> EntryFits(o.value.entry, startDate, endDate, repository, addressService)
  {
    if Survives(meterId, startDate, endDate, repository, addressService) {
      var cs := repository(meterId, startDate, endDate).value;
      var address := addressService(meterId).value;
      ContributionShape(meterId, address, cs, strategy, order);
      var e := ContributionFor(meterId, address, cs, strategy, order).entry;
      var g := Grouped(cs, LabelOf(strategy), order);
      assert ReadsRearranged(e, g, cs);
    }
  }

  /** All four series of an entry have the length of its meter's fetched record list. */
  lemma EntryLengths(e: MeterEntry, startDate: string, endDate: string,
                     repository: Repository, addressService: AddressLookup, s: Series)
    requires EntryFits(e, startDate, endDate, repository, addressService)
    ensures |EntrySeries(e, s)| == |repository(e.meterId, startDate, endDate).value|
  {
    var g :| ReadsRearranged(e, g, repository(e.meterId, startDate, endDate).value);
    assert |multiset(g)| == |g|;
  }

  /** The meter survives and has at least one record, so its task yields labels. */
  predicate Labelled(meterId: int, startDate: string, endDate: string,
                     repository: Repository, addressService: AddressLookup)
  {
    Survives(meterId, startDate, endDate, repository, addressService) &&
    repository(meterId, startDate, endDate).value != []
  }

  /** None of the given tasks yields labels. */
  predicate NoneLabelled(meterIds: seq<int>, idx: seq<nat>, startDate: string, endDate: string,
                         repository: Repository, addressService: AddressLookup)
    requires InBounds(idx, |meterIds|)
  {
    forall i :: 0 <= i < |idx| ==> !Labelled(meterIds[idx[i]], startDate, endDate, repository, addressService)
  }

  lemma NoneLabelledSnoc(meterIds: seq<int>, idx: seq<nat>, startDate: string, endDate: string,
                         repository: Repository, addressService: AddressLookup)
    requires InBounds(idx, |meterIds|) && idx != []
    ensures InBounds(idx[..|idx| - 1], |meterIds|)
    ensures NoneLabelled(meterIds, idx, startDate, endDate, repository, addressService) <==>
      NoneLabelled(meterIds, idx[..|idx| - 1], startDate, endDate, repository, addressService) &&
      !Labelled(meterIds[idx[|idx| - 1]], startDate, endDate, repository, addressService)
  {
    var n := |idx| - 1;
    assert forall i :: 0 <= i < n ==> idx[..n][i] == idx[i];
  }

  /** The top-level period is empty exactly when no completed task yields labels. */
  lemma {:induction false} PeriodEmptyWhenNoneLabelled(meterIds: seq<int>, completion: seq<nat>,
                                                      orders: seq<seq<string>>,
                                                      startDate: string, endDate: string, strategy: Strategy,
                                                      repository: Repository, addressService: AddressLookup)
    requires OrdersFit(meterIds, completion, orders, startDate, endDate, strategy, repository, addressService)
    ensures Merged(Outcomes(meterIds, completion, orders, startDate, endDate, strategy,
                            repository, addressService)).period == [] <==>
      NoneLabelled(meterIds, completion, startDate, endDate, repository, addressService)
  {
    if completion != [] {
      var n := |completion| - 1;
      var prefix := Outcomes(meterIds, completion[..n], orders[..n], startDate, endDate, strategy,
                             repository, addressService);
      var outcomes := Outcomes(meterIds, completion, orders, startDate, endDate, strategy, repository, addressService);
      PeriodEmptyWhenNoneLabelled(meterIds, completion[..n], orders[..n], startDate, endDate, strategy,
                                  repository, addressService);
      NoneLabelledSnoc(meterIds, completion, startDate, endDate, repository, addressService);
      assert outcomes[..n] == prefix;
      assert Merged(outcomes) == Merge(Merged(prefix), outcomes[n]);
      var m := meterIds[completion[n]];
      if Merged(prefix).period == [] && Survives(m, startDate, endDate, repository, addressService) {
        ContributionShape(m, addressService(m).value, repository(m, startDate, endDate).value, strategy, orders[n]);
      }
    }
  }

  /** Task i is the first in completion order to yield labels, and period lists its labels once each. */
  predicate FirstLabelledAt(meterIds: seq<int>, completion: seq<nat>, i: nat, period: seq<string>,
                            startDate: string, endDate: string, strategy: Strategy,
                            repository: Repository, addressService: AddressLookup)
    requires InBounds(completion, |meterIds|)
  {
    i < |completion| &&
    Labelled(meterIds[completion[i]], startDate, endDate, repository, addressService) &&
    Enumerates(period, Labels(repository(meterIds[completion[i]], startDate, endDate).value, LabelOf(strategy))) &&
    NoneLabelled(meterIds, completion[..i], startDate, endDate, repository, addressService)
  }

  lemma FirstLabelledStays(meterIds: seq<int>, completion: seq<nat>, i: nat, period: seq<string>,
                           startDate: string, endDate: string, strategy: Strategy,
                           repository: Repository, addressService: AddressLookup)
    requires InBounds(completion, |meterIds|) && completion != []
    requires InBounds(completion[..|completion| - 1], |meterIds|)
    requires FirstLabelledAt(meterIds, completion[..|completion| - 1], i, period, startDate, endDate, strategy,
                             repository, addressService)
    ensures FirstLabelledAt(meterIds, completion, i, period, startDate, endDate, strategy,
                            repository, addressService)
  {
    var n := |completion| - 1;
    assert completion[..n][i] == completion[i];
    assert completion[..n][..i] == completion[..i];
  }

  /**
    When the top-level period is not empty, it lists the labels, each once, of the first
    task in completion order that yields any.
  */
  lemma {:induction false} PeriodIsFirstLabelled(meterIds: seq<int>, completion: seq<nat>, orders: seq<seq<string>>,
                                                startDate: string, endDate: string, strategy: Strategy,
                                                repository: Repository, addressService: AddressLookup)
    requires OrdersFit(meterIds, completion, orders, startDate, endDate, strategy, repository, addressService)
    ensures var period := Merged(Outcomes(meterIds, completion, orders, startDate, endDate, strategy,
                                          repository, addressService)).period;
      period != [] ==>
        exists i: nat :: FirstLabelledAt(meterIds, completion, i, period, startDate, endDate, strategy,
                                         repository, addressService)
  {
    if completion != [] {
      var n := |completion| - 1;
      var prefix := Outcomes(meterIds, completion[..n], orders[..n], startDate, endDate, strategy,
                             repository, addressService);
      var outcomes := Outcomes(meterIds, completion, orders, startDate, endDate, strategy, repository, addressService);
      assert outcomes[..n] == prefix;
      var before := Merged(prefix).period;
      var period := Merged(outcomes).period;
      assert Merged(outcomes) == Merge(Merged(prefix), outcomes[n]);
      var m := meterIds[completion[n]];
      if before != [] {
        PeriodIsFirstLabelled(meterIds, completion[..n], orders[..n], startDate, endDate, strategy,
                              repository, addressService);
        var i: nat :| FirstLabelledAt(meterIds, completion[..n], i, before, startDate, endDate, strategy,
                                      repository, addressService);
        FirstLabelledStays(meterIds, completion, i, period, startDate, endDate, strategy, repository, addressService);
      } else if Survives(m, startDate, endDate, repository, addressService) {
        PeriodEmptyWhenNoneLabelled(meterIds, completion[..n], orders[..n], startDate, endDate, strategy,
                                    repository, addressService);
        ContributionShape(m, addressService(m).value, repository(m, startDate, endDate).value, strategy, orders[n]);
        assert period != [] ==> FirstLabelledAt(meterIds, completion, n, period, startDate, endDate, strategy,
                                                repository, addressService);
      }
    }
  }

  /** Whatever the completion order, period is empty exactly when no requested meter yields labels. */
  lemma PeriodEmptyExactlyWhenUnlabelled(meterIds: seq<int>, completion: seq<nat>, orders: seq<seq<string>>,
                                         startDate: string, endDate: string, strategy: Strategy,
                                         repository: Repository, addressService: AddressLookup)
    requires IsCompletionOrder(completion, |meterIds|)
    requires OrdersFit(meterIds, completion, orders, startDate, endDate, strategy, repository, addressService)
    ensures Merged(Outcomes(meterIds, completion, orders, startDate, endDate, strategy, repository,
                            addressService)).period == []
      <==> forall j :: 0 <= j < |meterIds| ==> !Labelled(meterIds[j], startDate, endDate, repository, addressService)
  {
    PeriodEmptyWhenNoneLabelled(meterIds, completion, orders, startDate, endDate, strategy, repository, addressService);
    if NoneLabelled(meterIds, completion, startDate, endDate, repository, addressService) {
      forall j | 0 <= j < |meterIds|
        ensures !Labelled(meterIds[j], startDate, endDate, repository, addressService)
      {
        assert Range(|meterIds|)[j] == j;
        assert j in multiset(completion);
        var i :| 0 <= i < |completion| && completion[i] == j;
      }
    }
  }
}

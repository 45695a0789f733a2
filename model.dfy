/** The records the core reads and the buckets it builds (business/model). */
module Model {
  import opened Civil

  /** A float64 reading. The core only carries these values, never computes on them. */
  type Metric(!new)

  /** One stored reading of a meter; only the calendar date of its timestamp matters here. */
  datatype Consumption = Consumption(
    id: string,
    meterId: int,
    date: CivilDate,
    activeEnergy: Metric,
    reactiveInductive: Metric,
    reactiveCapacitive: Metric,
    exportedEnergy: Metric)

  /** The value of the aggregation map: a period label and four parallel series. */
  datatype AggregatedConsumption = AggregatedConsumption(
    period: seq<string>,
    activeEnergy: seq<Metric>,
    reactiveInductive: seq<Metric>,
    reactiveCapacitive: seq<Metric>,
    exportedEnergy: seq<Metric>)

  /** Names the four metrics, so that one statement can cover all four series. */
  datatype Series = Active | ReactiveInductive | ReactiveCapacitive | Exported

  function Reading(c: Consumption, s: Series): Metric
  {
    match s
    case Active => c.activeEnergy
    case ReactiveInductive => c.reactiveInductive
    case ReactiveCapacitive => c.reactiveCapacitive
    case Exported => c.exportedEnergy
  }

  function Values(b: AggregatedConsumption, s: Series): seq<Metric>
  {
    match s
    case Active => b.activeEnergy
    case ReactiveInductive => b.reactiveInductive
    case ReactiveCapacitive => b.reactiveCapacitive
    case Exported => b.exportedEnergy
  }

  /** The readings of records, in record order. */
  function Readings(cs: seq<Consumption>, s: Series): (r: seq<Metric>)
    ensures |r| == |cs|
  {
    if cs == [] then [] else Readings(cs[..|cs| - 1], s) + [Reading(cs[|cs| - 1], s)]
  }

  lemma ReadingsAppend(cs: seq<Consumption>, c: Consumption, s: Series)
    ensures Readings(cs + [c], s) == Readings(cs, s) + [Reading(c, s)]
  {
    assert (cs + [c])[..|cs|] == cs;
  }

  lemma {:induction false} ReadingsConcat(a: seq<Consumption>, b: seq<Consumption>, s: Series)
    ensures Readings(a + b, s) == Readings(a, s) + Readings(b, s)
    decreases |b|
  {
    if b == [] {
      assert a + b == a;
    } else {
      var init, c := b[..|b| - 1], b[|b| - 1];
      assert b == init + [c];
      assert a + b == (a + init) + [c];
      calc {
        Readings(a + b, s);
        Readings((a + init) + [c], s);
        { ReadingsAppend(a + init, c, s); }
        Readings(a + init, s) + [Reading(c, s)];
        { ReadingsConcat(a, init, s); }
        (Readings(a, s) + Readings(init, s)) + [Reading(c, s)];
        Readings(a, s) + (Readings(init, s) + [Reading(c, s)]);
        { ReadingsAppend(init, c, s); }
        Readings(a, s) + Readings(init + [c], s);
        Readings(a, s) + Readings(b, s);
      }
    }
  }
}

# bia-consumption, modelled in Dafny

bia-consumption is a small HTTP service that reports the energy consumption of electricity meters over a date range, grouped by day, week or month. This project models its core and proves properties of the model:

- **Handler** (`ConsumptionHandler`). It reads the query parameters `meters_ids`, `start_date`, `end_date` and `kind_period`. It rejects a missing parameter, a malformed date, a start later than the end and a malformed id list, each with its own 400 message. Otherwise it calls the consumption service and answers 200 with the service's result.
- **Consumption service** (`ConsumptionService`). It picks the aggregation strategy for the period kind and starts one concurrent task per meter. Each task fetches the meter's readings and aggregates them. It then looks up the meter's address and flattens the aggregation into per-series lists. Finally it merges the result into a shared response: the period labels are stored once, by the first task to get there, and there is one `data_graph` entry per surviving meter.
- **Aggregation strategies** (`Aggregation`). Readings are grouped under a label:
  - daily: `"Jun 3"`;
  - weekly, Sunday to Saturday: `"May 28 - Jun 3"`;
  - monthly: `"Jul 2023"`.

  Each bucket appends the four measured series in input order. Label arithmetic uses a proleptic Gregorian calendar (`Civil`). Number formatting and `strconv.Atoi` are modelled in `Decimal`.
- **Address service** (`AddressService`). It reads `address-<id>` from the cache. On a miss it asks the adapter and stores the answer for 24 hours. Each failure is wrapped in its own message.
- **Address adapter** (`AddressAdapter`). It makes at most two remote calls, pausing two seconds after each failure. After two failures it returns a fixed mock address, with no error.
- **Memory cache** (`Cache`). The cache holds an index from key to list element and a recency list.
  - `Get` moves a hit to the back of the list and clears an expired entry.
  - `Set` evicts the front element when the index holds more than 100 keys, then appends.
  - `Clear` removes a key's element.

The cache is a `class` whose ghost `Snapshot()` is a pure `State`; each method is specified by a function from the old state to the new state. Concurrency in the service is modelled by a completion order: a permutation of the meters, chosen nondeterministically and returned as a ghost out-parameter. Go's map iteration order is modelled the same way, as a chosen enumeration of the keys. The repository, the remote address call and the clock are parameters.

## Model

| member | source | states |
|---|---|---|
| Decimal.NatToStringRoundTrip | services/address_service.go:29 | the decimal digits `%d` writes for a natural number read back as that number |
| Decimal.IntToStringRoundTrip | services/address_service.go:29 | a signed decimal rendering parses back to the same integer |
| Decimal.AtoiOfIntToString | handler/consumption_handler.go:65 | `strconv.Atoi` accepts the decimal form of every 64-bit integer and returns it |
| Decimal.IntToStringInjective | services/address_service.go:29 | distinct integers have distinct decimal renderings |
| Decimal.Pad4Value | business/aggregate/monthly_aggregate.go:13 | the zero-padded four-digit year denotes the year |
| Decimal.Pad4Injective | business/aggregate/monthly_aggregate.go:13 | distinct years give distinct padded digit strings |
| Decimal.YearStringSign | business/aggregate/monthly_aggregate.go:13 | the year text starts with '-' exactly for negative years, followed by the padded magnitude |
| Decimal.YearStringInjective | business/aggregate/monthly_aggregate.go:13 | the "2006" layout element never writes the same text for two years |
| Civil.DaysIn | handler/consumption_handler.go:49-56 | every month has 28 to 31 days |
| Civil.MonthAbbrev | business/aggregate/daily_aggregate.go:16 | the "Jan" layout yields a three-letter abbreviation |
| Civil.MonthAbbrevInjective | business/aggregate/daily_aggregate.go:16 | no two months share an abbreviation |
| Civil.NextDayNumber | business/aggregate/weekly_aggregate.go:16-17 | the next day is one day later on the day count |
| Civil.PrevDayNumber | business/aggregate/weekly_aggregate.go:16-17 | the previous day is one day earlier on the day count |
| Civil.NextOfPrevDay | business/aggregate/weekly_aggregate.go:16-17 | stepping back one day and forward one day returns to the same date |
| Civil.AddDaysNumber | business/aggregate/weekly_aggregate.go:16-17 | `AddDate(0, 0, n)` moves the date exactly n days on the day count, in either direction |
| Civil.DayNumberWithinYear | business/aggregate/weekly_aggregate.go:16-17 | a date's day count lies inside its own year's range |
| Civil.DayNumberInjective | business/aggregate/weekly_aggregate.go:16-17 | distinct dates have distinct day counts |
| Civil.BeforeIsEarlierDay | handler/consumption_handler.go:58-60 | `After` on dates holds exactly when the day count is larger, in both directions |
| Civil.Weekday | business/aggregate/weekly_aggregate.go:16 | the weekday offset subtracted from the date is in 0..6 |
| Model.Readings | business/aggregate/daily_aggregate.go:34-37 | one reading per consumption for the chosen series |
| Model.ReadingsConcat | business/aggregate/daily_aggregate.go:34-37 | the readings of a concatenation are the concatenated readings |
| Aggregation.StepFresh | business/aggregate/daily_aggregate.go:22-30 | a reading with an unseen label opens a bucket labelled `[period]` that holds that reading |
| Aggregation.StepPresent | business/aggregate/daily_aggregate.go:32-39 | a reading with a seen label is appended to every series of its bucket, and no other bucket changes |
| Aggregation.AggregateCharacterization | business/aggregate/daily_aggregate.go:12-43 | the map's keys are exactly the labels of the input; each bucket is the input's readings with that label, in input order, and never empty |
| Aggregation.AggregateAt | business/aggregate/daily_aggregate.go:12-43 | the same characterization, for a single key |
| Aggregation.AggregateKeys | business/aggregate/daily_aggregate.go:19-30 | a label is a key exactly when some input reading carries it |
| Aggregation.BucketShape | business/aggregate/daily_aggregate.go:23-24 | every bucket's period list is its own label alone, and each of its four series has one value per matching reading |
| Aggregation.MatchingConcat | business/aggregate/daily_aggregate.go:19-40 | the readings of a label in a concatenation are the label's readings in each part, in order |
| Aggregation.MatchingLabelled | business/aggregate/daily_aggregate.go:19-40 | a bucket holds only input readings that carry its label |
| Aggregation.LabelsMembership | business/aggregate/daily_aggregate.go:19-20 | the label set is exactly the labels of the input positions |
| Aggregation.AggregateEmpty | business/aggregate/daily_aggregate.go:13 | no readings give an empty map |
| Aggregation.AggregateEmptyThenAppend | business/aggregate/daily_aggregate.go:12-43 | the create-empty-then-append loop computes the aggregate of the whole input |
| Aggregation.AggregateDaily | business/aggregate/daily_aggregate.go:12-43 | the daily strategy aggregates under the `"Jan 2"` label |
| Aggregation.AggregateWeekly | business/aggregate/weekly_aggregate.go:12-45 | the weekly strategy aggregates under the week-range label |
| Aggregation.AggregateFirstThenAppend | business/aggregate/monthly_aggregate.go:9-35 | the first-reading-or-append loop computes the same aggregate as the other form |
| Aggregation.AggregateMonthly | business/aggregate/monthly_aggregate.go:9-35 | the monthly strategy aggregates under the `"Jan 2006"` label |
| Aggregation.AggregateWith | services/consumption_service.go:52 | the dispatched strategy aggregates under that strategy's label |
| Aggregation.NatToStringInjective | business/aggregate/daily_aggregate.go:16 | distinct day numbers print differently |
| Aggregation.DailyLabelMeaning | business/aggregate/daily_aggregate.go:15-17 | two dates share a daily label exactly when month and day agree, whatever the year |
| Aggregation.MonthlyLabelMeaning | business/aggregate/monthly_aggregate.go:13 | two dates share a monthly label exactly when month and year agree |
| Aggregation.WeekStartIsSunday | business/aggregate/weekly_aggregate.go:16 | the week starts on a Sunday |
| Aggregation.WeekContainsDate | business/aggregate/weekly_aggregate.go:16-17 | the date lies between the week's start and its end, six days after the start |
| Aggregation.WeekStartNumber | business/aggregate/weekly_aggregate.go:16 | the start is the date minus its weekday |
| Aggregation.WeekEndNumber | business/aggregate/weekly_aggregate.go:17 | the end is six days after the start |
| Aggregation.WeekBounds | business/aggregate/weekly_aggregate.go:16-17 | the start and end dates are determined by their day counts |
| Aggregation.WeekdayAfterSunday | business/aggregate/weekly_aggregate.go:16 | k days after a Sunday is weekday k |
| Aggregation.WeekLabelFrom | business/aggregate/weekly_aggregate.go:15-19 | the weekly label is `"<start month> <start day> - <end month> <end day>"` |
| Aggregation.SameWeekSameStart | business/aggregate/weekly_aggregate.go:15-19 | the seven days from a Sunday share that Sunday as start and share one label |
| Aggregation.SundayWeekLabel | business/aggregate/weekly_aggregate.go:15-19 | a Sunday whose week stays within its month is labelled by that month and days d to d+6 |
| Aggregation.MonthlyBucketIsOneMonth | business/aggregate/monthly_aggregate.go:13-31 | the readings in a monthly bucket share year and month |
| Aggregation.DailyBucketIsOneDayOfYear | business/aggregate/daily_aggregate.go:15-39 | the readings in a daily bucket share month and day |
| Aggregation.DailyYearCollision | business/aggregate/daily_aggregate.go:15-39 | 3 June 2022 and 3 June 2023 land in one `"Jun 3"` bucket |
| Aggregation.WeeklyYearCollision | business/aggregate/weekly_aggregate.go:15-19 | the weeks of 4 June 2017 and 4 June 2023 get the same label |
| Aggregation.MonthlyExample | services/comsuption_service_test.go:63-76 | 4 July 2023 is labelled `"Jul 2023"` |
| Aggregation.WeeklyExampleAcrossMonths | services/comsuption_service_test.go:112-131 | 3 June 2023 is in week `"May 28 - Jun 3"` |
| Aggregation.WeeklyExampleWithinMonth | services/comsuption_service_test.go:114-132 | 10 June 2023 is in week `"Jun 4 - Jun 10"` |
| Aggregation.JuneFourthSunday | business/aggregate/weekly_aggregate.go:15-19 | a 4 June that falls on a Sunday is in week `"Jun 4 - Jun 10"` |
| Cache.Empty | infraestructure/cache/memory_cache.go:22-27 | the new cache is empty and coherent |
| Cache.Without | infraestructure/cache/memory_cache.go:60 | the elements left are exactly those with another identity, and the list does not grow |
| Cache.WithoutAt | infraestructure/cache/memory_cache.go:78 | in a list of distinct elements, removing the one at position i leaves the others in their order: `s[..i] + s[i+1..]` |
| Cache.WithoutDistinct | infraestructure/cache/memory_cache.go:60 | removal keeps element identities distinct |
| Cache.WithoutAbsent | infraestructure/cache/memory_cache.go:78 | removing an element that is not in the list changes nothing |
| Cache.WithoutRemovesOne | infraestructure/cache/memory_cache.go:78 | removing a listed element takes out exactly one copy |
| Cache.AfterClear | infraestructure/cache/memory_cache.go:69-81 | Clear keeps the cache coherent |
| Cache.ClearSpec | infraestructure/cache/memory_cache.go:69-81 | Clear reports true exactly when the key is indexed. Then the key leaves the index, and the list becomes the old list without the key's element, the others in their order; the id counter is unchanged. Otherwise nothing changes |
| Cache.AfterGet | infraestructure/cache/memory_cache.go:29-47 | Get keeps the cache coherent |
| Cache.GetMiss | infraestructure/cache/memory_cache.go:33-36 | an unindexed key is a miss and leaves the state alone |
| Cache.GetExpired | infraestructure/cache/memory_cache.go:40-43 | an expired entry is a miss and is cleared |
| Cache.GetHit | infraestructure/cache/memory_cache.go:45-46 | a live entry returns its value. The new list is the old one with that element taken from its position and put at the back, the others keeping their relative order (MoveToBack). The index and id counter are unchanged |
| Cache.FoundMeansLive | infraestructure/cache/memory_cache.go:29-47 | a value found is the stored, unexpired value of that key |
| Cache.Evicted | infraestructure/cache/memory_cache.go:58-62 | above 100 indexed keys the front element is unlinked and its key unindexed; otherwise nothing changes |
| Cache.AfterSet | infraestructure/cache/memory_cache.go:49-67 | Set keeps the cache coherent |
| Cache.SetThenGet | infraestructure/cache/memory_cache.go:53-65 | after Set the key maps to a fresh element at the back, holding the value, and Get finds it until its expiry and no later |
| Cache.SetWithoutEviction | infraestructure/cache/memory_cache.go:64-65 | at 100 keys or fewer, Set appends and reindexes only that key |
| Cache.SetWithEviction | infraestructure/cache/memory_cache.go:58-65 | above 100 keys, Set drops the front element and its key and then appends |
| Cache.SetBelowThreshold | infraestructure/cache/memory_cache.go:53-65 | the exact new state of a Set that evicts nothing |
| Cache.SetFreshKey | infraestructure/cache/memory_cache.go:64-65 | a new key grows the index by one |
| Cache.SetKeepsBoundWhenFrontIsIndexed | infraestructure/cache/memory_cache.go:58-65 | while the front element is still indexed, the index never exceeds 101 keys |
| Cache.SetAll | infraestructure/cache/memory_cache.go:49-67 | a sequence of Sets keeps the cache coherent |
| Cache.SetAllFresh | infraestructure/cache/memory_cache.go:64-65 | distinct fresh keys are appended in order, and the index gains exactly them |
| Cache.CapacityIs101 | infraestructure/cache/memory_cache.go:58 | 101 distinct keys fit with no eviction; the 102nd evicts the first and the index stays at 101 |
| Cache.OverwriteLeavesOrphan | infraestructure/cache/memory_cache.go:64-65 | setting a key twice leaves two list elements; clearing it then leaves an unindexed element in the list |
| Cache.StaleFrontGrowsIndex | infraestructure/cache/memory_cache.go:58-62 | when the front element is unindexed, an eviction removes no key and the index reaches 102 |
| Cache.EvictUnindexedFront | infraestructure/cache/memory_cache.go:58-65 | evicting an unindexed front element lets a new key grow the index by one |
| Cache.IndexOutgrowsCapacity | infraestructure/cache/memory_cache.go:49-81 | Set, Set and Clear of one key followed by 102 fresh keys leave 102 keys indexed |
| Cache.MemoryCache.constructor | infraestructure/cache/memory_cache.go:22-27 | the new cache's state is the empty state |
| Cache.MemoryCache.Get | infraestructure/cache/memory_cache.go:29-47 | returns the found value; the new state is the Get transition of the old one; never an error |
| Cache.MemoryCache.Set | infraestructure/cache/memory_cache.go:49-67 | the new state is the Set transition with expiry now + ttl; never an error |
| Cache.MemoryCache.Clear | infraestructure/cache/memory_cache.go:69-81 | returns whether the key was indexed; the new state is the Clear transition; never an error |
| AddressAdapter.AttemptsMade | adapter/address_adapter.go:62-68 | one call when the first succeeds, else two |
| AddressAdapter.FailuresSeen | adapter/address_adapter.go:62-68 | the failed calls, each followed by a pause, never outnumber the calls made, and equal them exactly when both calls fail |
| AddressAdapter.GetAddress | adapter/address_adapter.go:58-75 | returns the first successful call's address, else the mock address, never an error; the calls made and the total pause (2 s per failure) are tracked |
| AddressService.CacheKey | services/address_service.go:29 | the key is `"address-"` followed by the decimal id |
| AddressService.CacheKeyInjective | services/address_service.go:29 | distinct meters never share a cache key |
| AddressService.CacheKeyRoundTrip | services/address_service.go:29 | the id can be read back from the key |
| AddressService.LookupShape | services/address_service.go:28-58 | an address comes exactly when there is no error; the adapter is asked exactly on a miss; a store happens exactly on a miss the adapter answers, under the meter's key with a 24-hour lifetime and the returned address |
| AddressService.HitReturnsCached | services/address_service.go:36-38 | a hit returns the cached address and calls nothing |
| AddressService.ReadErrorIsWrapped | services/address_service.go:32-34 | a cache read error is returned wrapped, and nothing else is called |
| AddressService.MissStoresForADay | services/address_service.go:43-54 | on a miss the adapter's address is stored for 24 hours and returned |
| AddressService.StoreErrorIsWrapped | services/address_service.go:49-52 | a failed store discards the address and returns the wrapped error |
| AddressService.AdapterErrorIsWrapped | services/address_service.go:57 | an adapter error is returned wrapped, with no store |
| AddressService.SmallKeys | services/adress_service_test.go:56-109 | meters 1 to 5 map to keys `address-1` to `address-5` |
| AddressService.TestHitFromCache | services/adress_service_test.go:51-62 | hit case of the service test |
| AddressService.TestMissStores | services/adress_service_test.go:63-79 | miss-then-store case of the service test |
| AddressService.TestReadError | services/adress_service_test.go:80-91 | cache-error case and its message |
| AddressService.TestAdapterError | services/adress_service_test.go:92-108 | adapter-error case and its message |
| AddressService.TestStoreError | services/adress_service_test.go:109-125 | store-error case and its message |
| AddressService.FallbackIsCached | services/address_service.go:43-54 | when both remote calls fail, the mock address is stored under the meter's key for 24 hours |
| AddressService.GetAddress | services/address_service.go:28-41 | against the memory cache: the outcome of the lookup, with the cache's new state being the Get transition and, on a miss, the Set of the resolved address |
| AddressService.GetAddressAdapter | services/address_service.go:43-58 | stores the resolved address for 24 hours and returns it |
| AddressService.MissIsServedFromCacheForADay | services/address_service.go:43-54 | after a miss, the stored address is found under the meter's key until 24 hours after the store |
| ConsumptionService.StrategyFor | services/consumption_service.go:25-34 | "monthly", "weekly" and "daily" select their strategies; every other kind selects none |
| ConsumptionService.Flatten | services/consumption_service.go:60-72 | for some enumeration of the aggregate's keys, each key once, the period labels and the four series are the buckets' contents concatenated in that order |
| ConsumptionService.FlatPeriodsOfAggregate | services/consumption_service.go:66-67 | the flattened periods of an aggregate are the enumeration itself |
| ConsumptionService.FlatValuesOfAggregate | services/consumption_service.go:66-72 | each flattened series is the readings regrouped by label in enumeration order |
| ConsumptionService.GroupedIsPermutation | services/consumption_service.go:66-72 | the regrouping is a permutation of the input readings: nothing is lost or duplicated |
| ConsumptionService.LabelsEmpty | services/consumption_service.go:64-72 | the periods are empty exactly when there are no readings |
| ConsumptionService.ProcessMeter | services/consumption_service.go:43-87 | a meter contributes only when both the fetch and the address lookup succeed, and then contributes its flattened aggregation |
| ConsumptionService.ContributionShape | services/consumption_service.go:52-85 | a contribution carries the meter id, the address text and the enumerated labels; every series is a permutation of the meter's readings and has one value per reading |
| ConsumptionService.EntrySeriesOf | services/consumption_service.go:66-72 | an entry's series are the flattened series of the meter's aggregate |
| ConsumptionService.FirstPeriodsConcat | services/consumption_service.go:75-77 | the periods of a longer run are the first non-empty periods |
| ConsumptionService.EntriesConcat | services/consumption_service.go:78-85 | entries accumulate by appending |
| ConsumptionService.MergedMeaning | services/consumption_service.go:74-86 | the merged response's period is the first non-empty contribution's periods, and its data graph is the contributions' entries in completion order |
| ConsumptionService.PeriodNeverOverwritten | services/consumption_service.go:75-77 | once the period is set, later merges never replace it |
| ConsumptionService.Range | services/consumption_service.go:41 | the meter positions 0..n-1 in order |
| ConsumptionService.Outcomes | services/consumption_service.go:41-88 | one outcome per completed task |
| ConsumptionService.GetConsumptionByPeriod | services/consumption_service.go:24-96 | an unknown kind is an error with the `invalid kind_period` message; otherwise, for some completion order of the meters, the result is the merge of the per-meter outcomes in that order, with no error |
| ConsumptionService.OutcomesSnoc | services/consumption_service.go:74-86 | completing one more task appends its outcome |
| ConsumptionService.SurvivorsCount | services/consumption_service.go:46-58 | a meter occurs among the survivors as often as in the request when its fetch and lookup succeed, and otherwise never |
| ConsumptionService.EntryIdsFollowCompletion | services/consumption_service.go:78-85 | the data graph's meter ids are the survivors in completion order |
| ConsumptionService.GatherConcat | services/consumption_service.go:78-85 | collecting over a concatenated order concatenates |
| ConsumptionService.GatherPermutation | services/consumption_service.go:41-88 | a reordering of the tasks permutes the collected entries |
| ConsumptionService.GatherOfRange | services/consumption_service.go:41 | in request order the collected ids are the survivors |
| ConsumptionService.DataGraphHoldsSurvivors | services/consumption_service.go:41-95 | whatever the completion order, the data graph holds each surviving meter as often as the request names it, and no other meter |
| ConsumptionService.EntriesFit | services/consumption_service.go:60-85 | every entry's series is a rearrangement of exactly that meter's readings, and its address is that meter's |
| ConsumptionService.MergedEntries | services/consumption_service.go:78-85 | a completed task adds its entry at the end of the data graph, or nothing |
| ConsumptionService.OutcomeFits | services/consumption_service.go:43-85 | any contribution fits its meter |
| ConsumptionService.EntryLengths | services/consumption_service.go:66-72 | each series has one value per reading of the meter |
| ConsumptionService.PeriodEmptyWhenNoneLabelled | services/consumption_service.go:75-77 | the period stays empty exactly when no completed task had a reading |
| ConsumptionService.PeriodIsFirstLabelled | services/consumption_service.go:75-77 | a non-empty period is the labels of the first completed task that had readings |
| ConsumptionService.PeriodEmptyExactlyWhenUnlabelled | services/consumption_service.go:75-77 | the period is empty exactly when no meter survives with a reading |
| ConsumptionHandler.QueryParam | handler/consumption_handler.go:41-44 | a missing parameter reads as the empty string |
| ConsumptionHandler.ParseDate | handler/consumption_handler.go:49-56 | `time.Parse("2006-01-02")` accepts exactly the 4-2-2 digit shape naming a real calendar date, and returns that date |
| ConsumptionHandler.PaddedValue | handler/consumption_handler.go:49-56 | a zero-padded number denotes its value |
| ConsumptionHandler.ParseFormattedDate | handler/consumption_handler.go:49-56 | every date with a four-digit year, written as YYYY-MM-DD, parses back to itself |
| ConsumptionHandler.TrimLeft | handler/consumption_handler.go:65 | removes exactly the leading white space |
| ConsumptionHandler.TrimRight | handler/consumption_handler.go:65 | removes exactly the trailing white space |
| ConsumptionHandler.TrimSpace | handler/consumption_handler.go:65 | the result neither starts nor ends with white space |
| ConsumptionHandler.TrimSpaceCuts | handler/consumption_handler.go:65 | the result is a slice of the input with only white space cut off both ends |
| ConsumptionHandler.TrimSpaceUnpadded | handler/consumption_handler.go:65 | an unpadded string is unchanged |
| ConsumptionHandler.Split | handler/consumption_handler.go:63 | splitting yields at least one piece, none containing a comma |
| ConsumptionHandler.SplitOfPlain | handler/consumption_handler.go:63 | a string with no comma is one piece |
| ConsumptionHandler.SplitAtComma | handler/consumption_handler.go:63 | splitting at a comma concatenates the splits of both sides |
| ConsumptionHandler.SplitJoin | handler/consumption_handler.go:63 | split undoes a comma join of comma-free pieces |
| ConsumptionHandler.ParseEachMeaning | handler/consumption_handler.go:62-70 | the id list exists exactly when every piece parses, and then id i is piece i's value |
| ConsumptionHandler.ParseMeterIds | handler/consumption_handler.go:62-70 | the loop computes the id list of the parameter, or fails on the first bad piece |
| ConsumptionHandler.NoneStaysNone | handler/consumption_handler.go:66-68 | a failure in a prefix fails the whole list |
| ConsumptionHandler.IntToStringShape | handler/consumption_handler.go:63-65 | a rendered id has no comma and no surrounding white space |
| ConsumptionHandler.MeterIdsRoundTrip | handler/consumption_handler.go:62-70 | joining 64-bit ids with commas and parsing gives back the same ids, in order |
| ConsumptionHandler.MissingParameterRejected | handler/consumption_handler.go:46-48 | any empty parameter gives the "all parameters required" error |
| ConsumptionHandler.DocumentedIdKeyRejected | handler/consumption_handler.go:41 | a request using the documented key `meter_ids` is rejected as missing a parameter |
| ConsumptionHandler.BadStartReportedFirst | handler/consumption_handler.go:49-52 | with all parameters present, a bad start date is reported before anything else |
| ConsumptionHandler.ValidateAccepts | handler/consumption_handler.go:41-70 | a request is accepted exactly when all parameters are present, both dates parse, the start is not after the end and the ids parse; it carries the parsed ids and the original strings |
| ConsumptionHandler.StartAfterEndOnlyWhenLater | handler/consumption_handler.go:58-60 | with valid dates, the order error comes exactly when the start is strictly later; equal dates pass |
| ConsumptionHandler.SplitExample | handler/consumption_handler.go:63 | `"1, 2,1"` splits into three pieces |
| ConsumptionHandler.SpacedPiece | handler/consumption_handler.go:65 | `" 2"` parses to 2 after trimming |
| ConsumptionHandler.IdsExample | handler/consumption_handler.go:62-70 | `"1, 2,1"` gives ids [1, 2, 1], duplicates kept |
| ConsumptionHandler.DateExample | handler/consumption_handler.go:49 | `"2023-06-01"` parses to 1 June 2023 |
| ConsumptionHandler.SameDayAccepted | handler/consumption_handler.go:41-70 | a same-day range with spaced ids passes validation |
| ConsumptionHandler.BadDatesRejected | handler/consumption_handler.go:49-56 | 29 February 2023 and a one-digit month are rejected, while 29 February 2024 is accepted |
| ConsumptionHandler.GetConsumption | handler/consumption_handler.go:38-78 | 400 with the validation message for an invalid request; 400 with the service's message for an unknown kind; otherwise 200 with the service's merged response for the parsed ids and the original date strings |

## Left out

- HTTP, the echo framework and JSON encoding: the handler works on a map of query parameters and returns a status and a body value.
- Goroutines, the wait group and the mutex in the consumption service. The concurrency is modelled as a nondeterministic completion order of the tasks, each merge treated as atomic.
- `MemoryCache.Get` calling `Clear` while it holds the same mutex, which deadlocks in Go: locking is not modelled. The model takes the intended effect, a cleared entry.
- The repository, SQL and the database: `ConsumptionService.Repository` is a function parameter standing for `GetConsumptionByFilters`.
- `ConsumptionService.GetConsumptionByPeriod`: the per-meter address lookup is a function parameter (`AddressLookup`). The cache state shared between the tasks is not threaded through the pipeline. The cache-backed lookup is modelled on its own as `AddressService.GetAddress`.
- The remote address call: the HTTP request, the status check and the JSON decoding are a function parameter, `AddressAdapter.Remote`. `time.Sleep` is recorded only as a ghost total.
- The clock: `time.Now()` is a parameter (`now`, `getNow`, `setNow`). `time.Add` overflow and saturation are not modelled.
- The float64 readings: `Model.Metric` is an opaque type, since the code only copies them.
- Time zones and the time of day: readings carry UTC civil dates; hours, minutes and offsets are dropped.
- nil slices versus empty slices, and Go's pointer results (`*Address`): `Option` stands for them.
- `fmt.Println` logging of the per-meter errors.
- Bytes versus characters: strings are sequences of characters, not of bytes. `strings.TrimSpace` on invalid UTF-8 is not modelled (Go decodes a bad byte to U+FFFD, which is not white space). The white space it trims is `unicode.IsSpace`, which `ConsumptionHandler.IsSpace` lists in full.
- A query key given several times: only its one value is modelled, as echo's `QueryParam` returns the first.
- `main.go`, the wiring and the database setup: not part of this model.
- Cache.SetKeepsBoundWhenFrontIsIndexed: the bound of 101 keys holds only while the front element is indexed. After an overwrite or an expiry-driven clear it does not, as `Cache.IndexOutgrowsCapacity` shows, so no general capacity invariant is claimed.
- The period list and the series disagree in length. The service stores one label per bucket in `period` but one value per reading in each series, so the two line up only when every bucket holds a single reading. The model keeps that behaviour; see `ConsumptionService.ContributionShape` and `ConsumptionService.EntryLengths`.
- The documentation names the id parameter `meter_ids`, while the code reads `meters_ids`. The model follows the code; `ConsumptionHandler.DocumentedIdKeyRejected` shows the consequence.
- After both remote calls fail, the adapter's mock address is returned without error, so the address service caches it for 24 hours (`AddressService.FallbackIsCached`).

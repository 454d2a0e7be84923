# EnergyZero sensors, modelled in Dafny

The EnergyZero integration for Home Assistant publishes today's electricity
and gas prices as a set of sensors. All of its sensor logic sits in
`sensor.py`:

- a table of twelve sensor descriptions, each with a service type (`today_gas` or
  `today_energy`), a key and a value function over the coordinator's
  price snapshot;
- `get_gas_price`, which reads the gas price a given number of hours ahead, or
  gives nothing when there is no gas series;
- `process_timestamp_prices`, which renders today's electricity prices as one
  string `HH:P.PP,HH:P.PP,...`. It converts every UTC key to local wall-clock
  time, sorts the (local time, price) pairs, and formats each pair as a
  zero-padded hour and a price with two decimals;
- the entity: its `entity_id` (`sensor.<domain>_<service type>_<key>`), its
  `unique_id` (`<config entry>_<service type>_<key>`), and its state, which
  passes `(hass, data)` to the value function of the hourly string and `(data)`
  to every other sensor.

The model is purely functional, as the source is:

- Instants are integer minutes since the epoch.
- Prices are integer hundredths of a euro, so `.2f` becomes exact digit rendering.
- The zone conversion is a function `Hass.asLocal` from UTC instants to naive
  wall-clock readings. It is arbitrary, so it can be non-injective, as at a
  daylight-saving clock change. A zone `h` hours ahead of UTC is one where
  `asLocal(t) == t + 60 * h` for every `t`.
- The price dictionary is a sequence of (instant, price) entries in
  iteration order. A lemma shows that the order does not matter.

Files:

- `wrappers.dfy` (`Option`, `Result`).
- `decimal.dfy`: the `02d` and `.2f` renderings and their parsers.
- `strings.dfy`: `",".join` and `split`.
- `pair_sort.dfy`: Python's `sorted()` on pairs.
- `sensor.dfy`: everything in `sensor.py`.

The hourly string is specified by a parser, `ParseTimestampPrices`.
`TimestampPricesRoundTrip` proves that the string reads back as exactly the
(hour, price) readings of the sorted local pairs. The other properties are
stated by their own lemmas:

- `ReadingsOfEntries` builds on the round trip: each entry is shown exactly once.
- `FixedOffsetTokens` also builds on it: at a fixed offset, the hours are the shifted UTC hours.
- `TimestampPricesTokenCount` states the token count, using `Split` and `Join` directly.
- `TokenFormat` states the format of a single token.
- `SortedLocalPricesSpec` states the order of the rendered pairs.

The comment at sensor.py:149 says the prices are converted to the local zone
and sorted, which reads as sorting by local time. The code
sorts whole `(local datetime, price)` tuples. The model follows the code, so
equal local times, such as a repeated hour when the clocks go back, are
ordered by price. `RepeatedHourExample` shows this.

## Model

| member | source | states |
|---|---|---|
| Sensor.ProcessTimestampPrices | sensor.py:144-156 | the hourly string is empty exactly when the price dictionary is empty |
| Sensor.TimestampPricesRoundTrip | sensor.py:150-156 | parsing the hourly string gives back one (local hour, price) reading per sorted local pair, in that order |
| Sensor.TimestampPricesTokenCount | sensor.py:150-156 | a non-empty dictionary gives a string that splits at its commas into exactly as many tokens as there are entries (no trailing or doubled comma) |
| Sensor.LocalPrices | sensor.py:151-152 | one local (wall-clock time, price) pair per dictionary entry |
| Sensor.TokenFormat | sensor.py:156 | a token (the f-string `Token`) is two digits whose value is the local hour (0..23), a colon, and the price with exactly two digits after the point, which parses back to the price; the price has a minus sign exactly when it is negative and no leading zero in its whole part (`01:0.24`, never `01:00.24`) |
| Sensor.TokensCommaFree | sensor.py:156 | no token contains a comma |
| Sensor.SortedLocalPricesSpec | sensor.py:150-153 | the rendered pairs are a permutation of the converted entries, in ascending order of full local date-time, with ties broken by price |
| Sensor.TimestampPricesIgnoreEntryOrder | sensor.py:150-153 | the hourly string depends only on the multiset of dictionary entries, not on their iteration order |
| Sensor.LocalPricesPermutation | sensor.py:151-152 | converting the keys of two permutations of the entries gives two permutations of local pairs |
| Sensor.ReadingsOfEntries | sensor.py:150-156 | the readings of the hourly string are, as a multiset, the (local hour, price) pairs of the entries, so every entry is shown exactly once |
| Sensor.FixedOffsetHour | sensor.py:151 | `hours` hours ahead of UTC, the wall-clock hour is (UTC hour + hours) mod 24 |
| Sensor.FixedOffsetTokens | sensor.py:151-156 | in a zone at a fixed offset, the string parses to one reading per entry, and the readings are, as a multiset, the pairs ((UTC hour + offset) mod 24, price) of the entries |
| Sensor.ShiftedHours | sensor.py:151 | at a fixed offset, converting every entry and taking its hour gives the entries' UTC hours shifted by the offset |
| Sensor.WallHour | sensor.py:156 | the hour shown for a wall-clock reading lies in 0..23 |
| Sensor.OneHourAheadExample | sensor.py:144-156 | in any zone one hour ahead of UTC, a price of 0.24 at 00:00 UTC renders as `01:0.24` |
| Sensor.PastMidnightExample | sensor.py:150-156 | in any zone one hour ahead, 22:00 and 23:00 UTC, given in reverse order, render as `23:0.30` then `00:0.25`: chronological, not ordered by hour number |
| Sensor.RepeatedHourExample | sensor.py:150-156 | in any zone that shows 00:00 and 01:00 UTC both as 02:00 (clocks going back), the two prices render in ascending order, `02:0.20` then `02:0.30` |
| Sensor.GetGasPrice | sensor.py:159-174 | with no gas series the result is None; otherwise it is the gas series' price at its clock reading plus `hours` hours |
| Sensor.GasCurrentHourSensor | sensor.py:43-51 | the first sensor is gas `current_hour_price`; its state is the library's current gas price, or unavailable without gas |
| Sensor.GasNextHourSensor | sensor.py:52-59 | the second sensor is gas `next_hour_price`; its state is the gas price one hour ahead |
| Sensor.EnergyCurrentHourSensor | sensor.py:60-68 | the electricity `current_hour_price` sensor shows the library's current electricity price |
| Sensor.EnergyNextHourSensor | sensor.py:69-78 | the electricity `next_hour_price` sensor shows the price at the library's clock reading plus one hour |
| Sensor.AveragePriceSensor | sensor.py:79-86 | the `average_price` sensor shows the library's average price |
| Sensor.MaxPriceSensor | sensor.py:87-94 | the `max_price` sensor shows the second element (index 1) of the library's extreme prices |
| Sensor.MinPriceSensor | sensor.py:95-102 | the `min_price` sensor shows the first element (index 0) of the library's extreme prices |
| Sensor.HighestPriceTimeSensor | sensor.py:103-110 | the `highest_price_time` sensor shows the library's instant of the highest price |
| Sensor.LowestPriceTimeSensor | sensor.py:111-118 | the `lowest_price_time` sensor shows the library's instant of the lowest price |
| Sensor.PercentageOfMaxSensor | sensor.py:119-126 | the `percentage_of_max` sensor shows the library's percentage of the highest price |
| Sensor.HoursPricedEqualOrLowerSensor | sensor.py:127-134 | the `hours_priced_equal_or_lower` sensor shows the library's count of hours |
| Sensor.TimestampPricesSensor | sensor.py:135-141 | the `timestamp_prices` sensor is an electricity sensor and shows the hourly string built in the configured zone |
| Sensor.GasSensorsUnavailableWithoutGas | sensor.py:50-58 | without a gas series every `today_gas` sensor is unavailable |
| Sensor.EnergySensorsIgnoreGas | sensor.py:60-141 | the state of every `today_energy` sensor is independent of the gas series |
| Sensor.SensorsWellFormed | sensor.py:42-142 | the table uses only the two service types; only `timestamp_prices` takes (hass, data); no (service type, key) pair repeats; `current_hour_price` and `next_hour_price` each occur under both service types (entries 0 and 2, 1 and 3) |
| Sensor.ServiceKeyInjective | sensor.py:211-213 | for the two service types, `<service type>_<key>` determines both the service type and the key |
| Sensor.IdPrefixes | sensor.py:210-213 | the entity ID starts with `sensor.<domain>_`; the unique ID starts with `<config entry>_` |
| Sensor.IdsShareSuffix | sensor.py:210-213 | the entity ID and the unique ID both end in `_<service type>_<key>` |
| Sensor.SensorsUniqueIds | sensor.py:210-213 | the twelve sensors of the table have pairwise different unique IDs within one config entry |
| Sensor.SensorsEntityIds | sensor.py:210-213 | the twelve sensors of the table have pairwise different entity IDs |
| Sensor.UniqueIdsDistinct | sensor.py:213 | in a well-formed table, no two sensors of one config entry share a unique ID |
| Sensor.EntityIdsDistinct | sensor.py:210-212 | in a well-formed table, no two sensors share an entity ID |
| Sensor.NativeValue | sensor.py:226-231 | `timestamp_prices` gets (hass, data), every other key gets (data); an arity mismatch is an error exactly when the key and the value function's arity disagree |
| Sensor.DispatchMatchesArity | sensor.py:226-231 | in a well-formed table no sensor's state is an arity error |
| Sensor.OnlyTimestampPricesReadsHass | sensor.py:229-231 | every sensor other than `timestamp_prices` has the same state whatever Home Assistant's zone is |
| PairSort.Insert | sensor.py:150-153 | inserting into a sorted sequence gives a sorted sequence one element longer, with that element added to the multiset |
| PairSort.Sort | sensor.py:150-153 | `sorted()` on pairs gives a lexicographically sorted permutation of its input |
| PairSort.SortedUnique | sensor.py:150-153 | two sorted arrangements of the same multiset of pairs are equal, so the tuple order leaves no ambiguity |
| PairSort.SortPermutationInvariant | sensor.py:150-153 | sorting two permutations of one sequence gives the same result |
| Decimal.Pad2 | sensor.py:156 | `02d` of an hour below 100 is two digits whose value is the hour |
| Decimal.NatToString | sensor.py:156 | the decimal digits of a natural number, with no leading zero unless the number is 0, which is `0` |
| Decimal.NatToStringUnique | sensor.py:156 | a digit string without a leading zero (or `0` itself) is the rendering of the number it reads as, so the rendering of n is the only such string for n |
| Decimal.ParseNatToString | sensor.py:156 | reading back the digits of n gives n |
| Decimal.FormatHundredths | sensor.py:156 | `.2f` of a price has exactly two digits after the point, contains neither `,` nor `:`, starts with `-` exactly when the price is negative (so 0 is `0.00`, not `-0.00`), and has no leading zero in its whole part (`0.24`, not `00.24`) |
| Decimal.ParseFormatHundredths | sensor.py:156 | reading back the `.2f` rendering of a price gives the price, negative prices included |
| Decimal.FormatUnsignedUnique | sensor.py:156 | a `digits.dd` string with no leading zero in its whole part is the rendering of the value it reads as |
| Decimal.FormatHundredthsUnique | sensor.py:156 | the `.2f` rendering is the only string that reads back as the price, carries `-` exactly for negative prices and has no leading zero in its whole part |
| Strings.Join | sensor.py:156 | joining no parts gives the empty string; a non-empty join is at least as long as its first part |
| Strings.JoinSeparators | sensor.py:156 | joining n separator-free parts puts exactly n - 1 separators in the string |
| Sensor.TimestampPricesCommaCount | sensor.py:156 | the hourly string of n > 0 prices holds exactly n - 1 commas |
| Strings.SplitJoin | sensor.py:156 | splitting a join of comma-free parts at the separator gives back the parts |

## Left out

- GasCurrentHourPrice: `if data.gas_today` at sensor.py:50 tests truthiness. The model tests for presence (`gasToday.Some?`). The two agree only if the library's gas series object is always truthy. The library is not part of this model, so this is assumed.
- The energyzero price library is not part of this model. It provides
  `current_price`, `price_at_time`, `average_price`, `extreme_prices`,
  `highest_price_time`, `lowest_price_time`, `pct_of_max_price`,
  `hours_priced_equal_or_lower` and `utcnow`. Each of these is a field of the
  snapshot record, taken as given; their rules are not modelled.
- PercentageOfMaxSensor: the library's `pct_of_max_price` is a float (the value type at sensor.py:38). The snapshot field `pctOfMaxPrice` narrows it to an integer, so fractional percentages are not modelled.
- The clock reading `utcnow()` is a field of that record.
- Prices are floats in the source. The model uses exact hundredths, so the
  rounding of `.2f` on finer prices is not modelled.
- `dt_util.as_local` and the zone database are library code. They are the
  function `Hass.asLocal`, and real daylight-saving rules are not modelled.
- Line 147 computes `local_tz` but never uses it. `as_local` converts to
  Home Assistant's default zone, which is what `Hass.asLocal` stands for.
- `DOMAIN` comes from `const.py`, which is not part of this model. It is a
  parameter of `EntityId`.
- Each sensor's name becomes its entity's display name (`_attr_name`, sensor.py:209). Display names have no behaviour to verify and are not modelled.
- Translation keys, units, device classes and state classes have no behaviour
  and are left out.
- `async_setup_entry` creates one entity per description (sensor.py:177-188).
  It is left out, along with the base classes `CoordinatorEntity` and
  `SensorEntity`, which are platform code: update subscription and availability
  reporting are not modelled.
- `DeviceInfo`, the device registry and `SERVICE_TYPE_DEVICE_NAMES` are left
  out, for the same reason.
- `native_value` is defined at module level at line 226, outside the class.
  The model treats it as the entity's state property.
- The type hint at line 38 declares two-argument value functions, but the
  lambdas take one. The model keeps the arity the lambdas actually have
  (`OnData` / `OnHassData`). A call with the wrong number of arguments is
  modelled as an error value rather than an exception.
- `datetime` has a bounded year range. The model's instants are unbounded
  integers, so conversions that overflow it are not modelled.
- The function is pure, so the model cannot express that rendering leaves
  `prices` unchanged. It holds trivially: the model has no state to modify.

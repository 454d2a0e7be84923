/**
 * The EnergyZero sensor platform: the table of sensor descriptions, the
 * values each sensor reads from the shared price snapshot, the condensed
 * "hourly prices" string, and the identifiers given to each entity.
 *
 * Instants are whole minutes since the Unix epoch; prices are whole
 * hundredths of a euro. Everything the external price library computes
 * (current price, price at an instant, average, extremes, ...) is a field
 * of the snapshot, taken as given.
 */
module Sensor {
  import opened Wrappers
  import opened Strings
  import opened Decimal
  import PairSort

  /** Minutes since the epoch (an hour is 60 of them): a UTC instant, or a naive local wall-clock reading. */
  type Minute = int

  /** A price, in hundredths of a euro. */
  type Cents = int

  /**
   * One commodity's prices for today as the price library hands them over:
   * `prices` is the UTC-keyed price dictionary in its iteration order,
   * `utcnow` the library's clock reading at the moment of the read, and the
   * remaining fields are the library's own derived values.
   */
  datatype PriceSeries = PriceSeries(
    prices: seq<(Minute, Cents)>,
    utcnow: Minute,
    priceAt: Minute -> Option<Cents>,
    currentPrice: Option<Cents>,
    averagePrice: Cents,
    extremePrices: (Cents, Cents),
    highestPriceTime: Minute,
    lowestPriceTime: Minute,
    pctOfMaxPrice: int,
    hoursPricedEqualOrLower: int)

  /** The coordinator's snapshot: electricity always, gas only when available. */
  datatype EnergyZeroData = EnergyZeroData(energyToday: PriceSeries, gasToday: Option<PriceSeries>)

  /**
   * What the sensors need of Home Assistant: the conversion of a UTC instant
   * to the naive wall-clock time of the configured zone.
   */
  datatype Hass = Hass(asLocal: Minute -> Minute)

  /** A sensor state: a price, a plain number, an instant, a string, or unavailable. */
  datatype Value =
    | Unavailable
    | Price(cents: Cents)
    | Number(n: int)
    | Moment(utc: Minute)
    | Text(s: string)

  function OfPrice(p: Option<Cents>): Value {
    match p
    case None => Unavailable
    case Some(c) => Price(c)
  }

  // ---------------------------------------------------------------------
  // The hourly price string

  /** The hour of the day (0..23) shown by a wall-clock reading. */
  function WallHour(local: Minute): (h: int)
    ensures 0 <= h < 24
  {
    (local / 60) % 24
  }

  /** Every entry's key converted to local wall-clock time, the price kept. */
  function LocalPrices(prices: seq<(Minute, Cents)>, asLocal: Minute -> Minute): (r: seq<PairSort.Pair>)
    ensures |r| == |prices|
  {
    seq(|prices|, i requires 0 <= i < |prices| => (asLocal(prices[i].0), prices[i].1))
  }

  /** `HH:P.PP`: the local hour, zero-padded, and the price with two decimals. */
  function Token(p: PairSort.Pair): string {
    Pad2(WallHour(p.0)) + ":" + FormatHundredths(p.1)
  }

  /**
   * A token is two digits giving the hour (00..23), a colon, and the price
   * with exactly two digits after its decimal point, which reads back as the price.
   * The price has a minus sign exactly when it is negative, and its whole part
   * has no leading zero (`0.24`, not `00.24`).
   */
  lemma TokenFormat(p: PairSort.Pair)
    ensures var t := Token(p);
      && |t| >= 7 && IsDigit(t[0]) && IsDigit(t[1]) && t[2] == ':'
      && DigitValue(t[0]) * 10 + DigitValue(t[1]) == WallHour(p.0)
      && t[|t| - 3] == '.' && IsDigit(t[|t| - 2]) && IsDigit(t[|t| - 1])
      && ParseHundredths(t[3..]) == Some(p.1)
      && (t[3] == '-' <==> p.1 < 0)
      && (p.1 < 0 ==> t[4] != '0' || t[5] == '.')
      && (p.1 >= 0 ==> t[3] != '0' || t[4] == '.')
  {
    var t := Token(p);
    var f := FormatHundredths(p.1);
    ParseFormatHundredths(p.1);
    assert t[3..] == f;
    assert t[3] == f[0] && t[4] == f[1] && t[5] == f[2];
  }

  function Tokens(ps: seq<PairSort.Pair>): (ts: seq<string>)
    ensures |ts| == |ps|
  {
    if ps == [] then [] else [Token(ps[0])] + Tokens(ps[1..])
  }

  /** No token contains a comma, so the commas of the string are exactly its separators. */
  lemma {:induction false} TokensCommaFree(ps: seq<PairSort.Pair>)
    ensures forall i :: 0 <= i < |ps| ==> ',' !in Tokens(ps)[i]
  {
    if ps != [] {
      TokensCommaFree(ps[1..]);
      var t := Token(ps[0]);
      assert t == Pad2(WallHour(ps[0].0)) + ":" + FormatHundredths(ps[0].1);
      assert ',' !in t;
      assert Tokens(ps) == [t] + Tokens(ps[1..]);
    }
  }

  /** The local (wall-clock, price) pairs in the order they are rendered. */
  function SortedLocalPrices(hass: Hass, data: EnergyZeroData): seq<PairSort.Pair> {
    PairSort.Sort(LocalPrices(data.energyToday.prices, hass.asLocal))
  }

  /** The hourly prices of today's electricity as one comma-separated string. */
  function ProcessTimestampPrices(hass: Hass, data: EnergyZeroData): (r: string)
    ensures r == "" <==> data.energyToday.prices == []
  {
    var ts := Tokens(SortedLocalPrices(hass, data));
    assert ts != [] ==> |ts[0]| >= 3;
    Join(ts, ',')
  }

  // Reading the hourly string back.

  /** A token `HH:P.PP` as the pair (hour, hundredths) it shows. */
  function ParseToken(t: string): Option<(int, Cents)> {
    if |t| < 3 || !IsDigit(t[0]) || !IsDigit(t[1]) || t[2] != ':' then None
    else match ParseHundredths(t[3..])
      case None => None
      case Some(c) => Some((DigitValue(t[0]) * 10 + DigitValue(t[1]), c))
  }

  function ParseTokens(ts: seq<string>): (r: Option<seq<(int, Cents)>>)
    ensures r.Some? ==> |r.value| == |ts|
  {
    if ts == [] then Some([])
    else match ParseToken(ts[0])
      case None => None
      case Some(x) =>
        match ParseTokens(ts[1..])
        case None => None
        case Some(rest) => Some([x] + rest)
  }

  /** The (hour, price) readings an hourly string shows, in order. */
  function ParseTimestampPrices(s: string): Option<seq<(int, Cents)>> {
    if s == "" then Some([]) else ParseTokens(Split(s, ','))
  }

  /** What a reader of the hourly string sees of a local pair: its hour and price. */
  function Readings(ps: seq<PairSort.Pair>): (r: seq<(int, Cents)>)
    ensures |r| == |ps|
    ensures forall i :: 0 <= i < |ps| ==> r[i] == (WallHour(ps[i].0), ps[i].1)
  {
    if ps == [] then [] else [(WallHour(ps[0].0), ps[0].1)] + Readings(ps[1..])
  }

  lemma ParseTokenOf(p: PairSort.Pair)
    ensures ParseToken(Token(p)) == Some((WallHour(p.0), p.1))
  {
    TokenFormat(p);
    ParseTokenShape(Token(p), WallHour(p.0), p.1);
  }

  lemma ParseTokenShape(t: string, h: int, c: Cents)
    requires |t| >= 3 && IsDigit(t[0]) && IsDigit(t[1]) && t[2] == ':'
    requires DigitValue(t[0]) * 10 + DigitValue(t[1]) == h
    requires ParseHundredths(t[3..]) == Some(c)
    ensures ParseToken(t) == Some((h, c))
  {
  }

  lemma {:induction false} ParseTokensOf(ps: seq<PairSort.Pair>)
    ensures ParseTokens(Tokens(ps)) == Some(Readings(ps))
  {
    if ps != [] {
      var ts := Tokens(ps);
      ParseTokenOf(ps[0]);
      ParseTokensOf(ps[1..]);
      assert ts[0] == Token(ps[0]) && ts[1..] == Tokens(ps[1..]);
    }
  }

  /**
   * The hourly string reads back as one (hour, price) reading per price
   * entry, in the order of the sorted local pairs.
   */
  lemma TimestampPricesRoundTrip(hass: Hass, data: EnergyZeroData)
    ensures ParseTimestampPrices(ProcessTimestampPrices(hass, data)) == Some(Readings(SortedLocalPrices(hass, data)))
  {
    var ps := SortedLocalPrices(hass, data);
    var ts := Tokens(ps);
    ParseTokensOf(ps);
    if ts != [] {
      TokensCommaFree(ps);
      SplitJoin(ts, ',');
    }
  }

  /**
   * Exactly one token per price entry, separated by single commas: the
   * string splits at its commas into as many tokens as there are prices.
   */
  lemma TimestampPricesTokenCount(hass: Hass, data: EnergyZeroData)
    requires data.energyToday.prices != []
    ensures |Split(ProcessTimestampPrices(hass, data), ',')| == |data.energyToday.prices|
  {
    var ps := SortedLocalPrices(hass, data);
    var ts := Tokens(ps);
    assert |ps| == |data.energyToday.prices| by {
      assert |multiset(ps)| == |multiset(LocalPrices(data.energyToday.prices, hass.asLocal))|;
    }
    TokensCommaFree(ps);
    SplitJoin(ts, ',');
  }

  /** The hourly string holds exactly one comma fewer than there are price entries. */
  lemma TimestampPricesCommaCount(hass: Hass, data: EnergyZeroData)
    requires data.energyToday.prices != []
    ensures multiset(ProcessTimestampPrices(hass, data))[','] == |data.energyToday.prices| - 1
  {
    var ps := SortedLocalPrices(hass, data);
    assert |ps| == |data.energyToday.prices| by {
      assert |multiset(ps)| == |multiset(LocalPrices(data.energyToday.prices, hass.asLocal))|;
    }
    TokensCommaFree(ps);
    JoinSeparators(Tokens(ps), ',');
  }

  /**
   * The rendered pairs are the local pairs of the price entries, each once,
   * in ascending order of local wall-clock time (the full date and time,
   * not only the hour), equal times ordered by price.
   */
  lemma SortedLocalPricesSpec(hass: Hass, data: EnergyZeroData)
    ensures var ps := SortedLocalPrices(hass, data);
      && multiset(ps) == multiset(LocalPrices(data.energyToday.prices, hass.asLocal))
      && forall i, j :: 0 <= i < j < |ps| ==>
           ps[i].0 < ps[j].0 || (ps[i].0 == ps[j].0 && ps[i].1 <= ps[j].1)
  {
  }

  lemma {:induction false} LocalPricesPermutation(p: seq<(Minute, Cents)>, q: seq<(Minute, Cents)>, asLocal: Minute -> Minute)
    requires multiset(p) == multiset(q)
    ensures multiset(LocalPrices(p, asLocal)) == multiset(LocalPrices(q, asLocal))
  {
    if p != [] {
      var x := p[0];
      assert x in multiset(q);
      var k :| 0 <= k < |q| && q[k] == x;
      var q' := q[..k] + q[k + 1..];
      RemoveAtMultiset(q, k);
      assert p == [x] + p[1..];
      assert multiset(p[1..]) == multiset(q');
      LocalPricesPermutation(p[1..], q', asLocal);
      LocalPricesRemoveAt(q, k, asLocal);
      LocalPricesCons(p, asLocal);
    }
  }

  lemma LocalPricesCons(p: seq<(Minute, Cents)>, asLocal: Minute -> Minute)
    requires p != []
    ensures multiset(LocalPrices(p, asLocal))
      == multiset(LocalPrices(p[1..], asLocal)) + multiset{(asLocal(p[0].0), p[0].1)}
  {
    assert LocalPrices(p, asLocal) == [(asLocal(p[0].0), p[0].1)] + LocalPrices(p[1..], asLocal);
  }

  lemma RemoveAtMultiset<T>(q: seq<T>, k: nat)
    requires k < |q|
    ensures multiset(q[..k] + q[k + 1..]) == multiset(q) - multiset{q[k]}
  {
    assert q == q[..k] + [q[k]] + q[k + 1..];
  }

  lemma LocalPricesRemoveAt(q: seq<(Minute, Cents)>, k: nat, asLocal: Minute -> Minute)
    requires k < |q|
    ensures multiset(LocalPrices(q, asLocal))
      == multiset(LocalPrices(q[..k] + q[k + 1..], asLocal)) + multiset{(asLocal(q[k].0), q[k].1)}
  {
    var l := LocalPrices(q, asLocal);
    var q' := q[..k] + q[k + 1..];
    var l' := LocalPrices(q', asLocal);
    forall i | 0 <= i < |l'| ensures l'[i] == (l[..k] + l[k + 1..])[i] {
      if i < k { assert q'[i] == q[i]; } else { assert q'[i] == q[i + 1]; }
    }
    assert l' == l[..k] + l[k + 1..];
    RemoveAtMultiset(l, k);
  }

  /**
   * The hourly string depends on the price map only, not on the order in
   * which the dictionary yields its entries.
   */
  lemma TimestampPricesIgnoreEntryOrder(hass: Hass, data: EnergyZeroData, other: EnergyZeroData)
    requires multiset(data.energyToday.prices) == multiset(other.energyToday.prices)
    ensures ProcessTimestampPrices(hass, data) == ProcessTimestampPrices(hass, other)
  {
    LocalPricesPermutation(data.energyToday.prices, other.energyToday.prices, hass.asLocal);
    PairSort.SortPermutationInvariant(
      LocalPrices(data.energyToday.prices, hass.asLocal),
      LocalPrices(other.energyToday.prices, hass.asLocal));
  }

  // A zone at a fixed offset from UTC.

  /** The wall-clock hour `hours` hours ahead of a UTC instant. */
  lemma FixedOffsetHour(utc: Minute, hours: int)
    ensures WallHour(utc + hours * 60) == (WallHour(utc) + hours) % 24
  {
    var q := utc / 60;
    ShiftedQuotient(utc, hours);
    ShiftedRemainder(q, hours);
  }

  lemma ShiftedQuotient(utc: Minute, hours: int)
    ensures (utc + hours * 60) / 60 == utc / 60 + hours
  {
    assert utc + hours * 60 == (utc / 60 + hours) * 60 + utc % 60;
  }

  lemma ShiftedRemainder(q: int, hours: int)
    ensures (q + hours) % 24 == (q % 24 + hours) % 24
  {
    assert q + hours == (q / 24) * 24 + (q % 24 + hours);
  }

  /**
   * The readings of the hourly string are the (local hour, price) pairs of
   * the price entries, each entry shown exactly once.
   */
  lemma ReadingsOfEntries(hass: Hass, data: EnergyZeroData)
    ensures multiset(Readings(SortedLocalPrices(hass, data)))
         == multiset(LocalReadings(data.energyToday.prices, hass.asLocal))
  {
    var prices := data.energyToday.prices;
    var local := LocalPrices(prices, hass.asLocal);
    var ps := SortedLocalPrices(hass, data);
    LocalPricesPermutation(ps, local, WallHour);
    ReadingsAsLocalPrices(ps);
    LocalHours(prices, hass.asLocal);
  }

  /** Readings only replace each wall-clock reading by its hour. */
  lemma ReadingsAsLocalPrices(ps: seq<PairSort.Pair>)
    ensures Readings(ps) == LocalPrices(ps, WallHour)
  {
  }

  /** Each entry as the hourly string shows it: its local hour and its price. */
  function LocalReadings(prices: seq<(Minute, Cents)>, asLocal: Minute -> Minute): (r: seq<(int, Cents)>)
    ensures |r| == |prices|
  {
    seq(|prices|, i requires 0 <= i < |prices| => (WallHour(asLocal(prices[i].0)), prices[i].1))
  }

  /** Converting to local time and then taking the hour is taking the local hour. */
  lemma LocalHours(prices: seq<(Minute, Cents)>, asLocal: Minute -> Minute)
    ensures LocalPrices(LocalPrices(prices, asLocal), WallHour) == LocalReadings(prices, asLocal)
  {
  }

  /**
   * In a zone `hours` hours ahead of UTC, the hourly string parses to the
   * pairs (UTC hour of the entry + hours) mod 24 and price, one per entry,
   * each entry exactly once.
   */
  lemma FixedOffsetTokens(hass: Hass, data: EnergyZeroData, hours: int)
    requires forall t :: hass.asLocal(t) == t + hours * 60
    ensures var r := ParseTimestampPrices(ProcessTimestampPrices(hass, data));
      && r.Some? && |r.value| == |data.energyToday.prices|
      && multiset(r.value) == multiset(ShiftedReadings(data.energyToday.prices, hours))
  {
    var prices := data.energyToday.prices;
    TimestampPricesRoundTrip(hass, data);
    ReadingsOfEntries(hass, data);
    ShiftedHours(prices, hass.asLocal, hours);
  }

  /** Each entry with its UTC hour moved `hours` hours ahead, and its price. */
  function ShiftedReadings(prices: seq<(Minute, Cents)>, hours: int): (r: seq<(int, Cents)>)
    ensures |r| == |prices|
  {
    seq(|prices|, i requires 0 <= i < |prices| => ((WallHour(prices[i].0) + hours) % 24, prices[i].1))
  }

  /** At a fixed offset, the local hour of an entry is its shifted UTC hour. */
  lemma ShiftedHours(prices: seq<(Minute, Cents)>, asLocal: Minute -> Minute, hours: int)
    requires forall t :: asLocal(t) == t + hours * 60
    ensures LocalReadings(prices, asLocal) == ShiftedReadings(prices, hours)
  {
    var l1, l2 := LocalReadings(prices, asLocal), ShiftedReadings(prices, hours);
    forall k | 0 <= k < |prices| ensures l1[k] == l2[k] {
      ShiftedHourAt(asLocal, hours, prices[k].0);
    }
  }

  lemma ShiftedHourAt(asLocal: Minute -> Minute, hours: int, t: Minute)
    requires asLocal(t) == t + hours * 60
    ensures WallHour(asLocal(t)) == (WallHour(t) + hours) % 24
  {
    FixedOffsetHour(t, hours);
  }

  // ---------------------------------------------------------------------
  // Gas prices

  /** Today's gas price `hours` hours from now; None when there is no gas series. */
  function GetGasPrice(data: EnergyZeroData, hours: int): (r: Option<Cents>)
    ensures data.gasToday.None? ==> r.None?
    ensures data.gasToday.Some? ==>
      r == data.gasToday.value.priceAt(data.gasToday.value.utcnow + hours * 60)
  {
    match data.gasToday
    case None => None
    case Some(gas) => gas.priceAt(gas.utcnow + hours * 60)
  }

  // ---------------------------------------------------------------------
  // The sensor descriptions

  /**
   * A sensor's value function. Only the hourly string needs Home Assistant
   * (for the time zone); every other sensor reads the snapshot alone.
   */
  datatype ValueFn =
    | OnData(f: EnergyZeroData -> Value)
    | OnHassData(g: (Hass, EnergyZeroData) -> Value)

  datatype Description = Description(key: string, name: string, serviceType: string, valueFn: ValueFn)

  const TODAY_GAS := "today_gas"
  const TODAY_ENERGY := "today_energy"
  const TIMESTAMP_PRICES := "timestamp_prices"

  // The value functions of the table, one per sensor.

  function GasCurrentHourPrice(data: EnergyZeroData): Value {
    if data.gasToday.Some? then OfPrice(data.gasToday.value.currentPrice) else Unavailable
  }

  function GasNextHourPrice(data: EnergyZeroData): Value {
    OfPrice(GetGasPrice(data, 1))
  }

  function EnergyCurrentHourPrice(data: EnergyZeroData): Value {
    OfPrice(data.energyToday.currentPrice)
  }

  function EnergyNextHourPrice(data: EnergyZeroData): Value {
    OfPrice(data.energyToday.priceAt(data.energyToday.utcnow + 60))
  }

  function AveragePrice(data: EnergyZeroData): Value {
    Price(data.energyToday.averagePrice)
  }

  function MaxPrice(data: EnergyZeroData): Value {
    Price(data.energyToday.extremePrices.1)
  }

  function MinPrice(data: EnergyZeroData): Value {
    Price(data.energyToday.extremePrices.0)
  }

  function HighestPriceTime(data: EnergyZeroData): Value {
    Moment(data.energyToday.highestPriceTime)
  }

  function LowestPriceTime(data: EnergyZeroData): Value {
    Moment(data.energyToday.lowestPriceTime)
  }

  function PercentageOfMax(data: EnergyZeroData): Value {
    Number(data.energyToday.pctOfMaxPrice)
  }

  function HoursPricedEqualOrLower(data: EnergyZeroData): Value {
    Number(data.energyToday.hoursPricedEqualOrLower)
  }

  function TimestampPrices(hass: Hass, data: EnergyZeroData): Value {
    Text(ProcessTimestampPrices(hass, data))
  }

  const SENSORS: seq<Description> := [
    Description("current_hour_price", "Current Hour Price", TODAY_GAS, OnData(GasCurrentHourPrice)),
    Description("next_hour_price", "Next Hour Price", TODAY_GAS, OnData(GasNextHourPrice)),
    Description("current_hour_price", "Current Hour Price", TODAY_ENERGY, OnData(EnergyCurrentHourPrice)),
    Description("next_hour_price", "Next Hour Price", TODAY_ENERGY, OnData(EnergyNextHourPrice)),
    Description("average_price", "Average Price Today", TODAY_ENERGY, OnData(AveragePrice)),
    Description("max_price", "Highest Price Today", TODAY_ENERGY, OnData(MaxPrice)),
    Description("min_price", "Lowest Price Today", TODAY_ENERGY, OnData(MinPrice)),
    Description("highest_price_time", "Time of Highest Price Today", TODAY_ENERGY, OnData(HighestPriceTime)),
    Description("lowest_price_time", "Time of Lowest Price Today", TODAY_ENERGY, OnData(LowestPriceTime)),
    Description("percentage_of_max", "Current Percentage of Highest Price", TODAY_ENERGY, OnData(PercentageOfMax)),
    Description("hours_priced_equal_or_lower", "Hours Priced Equal or Lower", TODAY_ENERGY,
      OnData(HoursPricedEqualOrLower)),
    Description(TIMESTAMP_PRICES, "Hourly Prices Today", TODAY_ENERGY, OnHassData(TimestampPrices))
  ]

  // ---------------------------------------------------------------------
  // The entity: identifiers and state

  const SENSOR_DOMAIN := "sensor"

  /** `sensor.<domain>_<service type>_<key>`. */
  function EntityId(domain: string, d: Description): string {
    SENSOR_DOMAIN + "." + domain + "_" + d.serviceType + "_" + d.key
  }

  /** `<config entry id>_<service type>_<key>`. */
  function UniqueId(entryId: string, d: Description): string {
    entryId + "_" + d.serviceType + "_" + d.key
  }

  /**
   * The entity ID and the unique ID of a sensor end in the same
   * `_<service type>_<key>`; only their prefixes (the sensor domain and the
   * integration's domain, or the config entry) differ.
   */
  lemma IdsShareSuffix(domain: string, entryId: string, d: Description)
    ensures var n := |d.serviceType| + |d.key| + 2;
      var e, u := EntityId(domain, d), UniqueId(entryId, d);
      && |e| >= n && |u| >= n && e[|e| - n..] == u[|u| - n..] == "_" + d.serviceType + "_" + d.key
  {
    var tail := "_" + d.serviceType + "_" + d.key;
    assert EntityId(domain, d) == (SENSOR_DOMAIN + "." + domain) + tail;
    assert UniqueId(entryId, d) == entryId + tail;
    SuffixOf(SENSOR_DOMAIN + "." + domain, tail);
    SuffixOf(entryId, tail);
  }

  lemma SuffixOf(p: string, tail: string)
    ensures (p + tail)[|p + tail| - |tail|..] == tail
  {
  }

  /**
   * The entity ID lies in the sensor domain and names the integration's
   * domain; the unique ID starts with the config entry's ID.
   */
  lemma IdPrefixes(domain: string, entryId: string, d: Description)
    ensures var e, p := EntityId(domain, d), "sensor." + domain + "_";
      |e| > |p| && e[..|p|] == p
    ensures var u := UniqueId(entryId, d);
      |u| > |entryId| && u[..|entryId| + 1] == entryId + "_"
  {
    var tail := d.serviceType + "_" + d.key;
    assert EntityId(domain, d) == ("sensor." + domain + "_") + tail;
    assert UniqueId(entryId, d) == (entryId + "_") + tail;
  }

  /** Python's TypeError when a value function is called with the wrong number of arguments. */
  datatype DispatchError = ArgumentCountMismatch

  /** The sensor's state: the hourly string gets (hass, data), every other sensor (data). */
  function NativeValue(d: Description, hass: Hass, data: EnergyZeroData): (r: Result<Value, DispatchError>)
    ensures d.key != TIMESTAMP_PRICES && d.valueFn.OnData? ==> r == Ok(d.valueFn.f(data))
    ensures d.key == TIMESTAMP_PRICES && d.valueFn.OnHassData? ==> r == Ok(d.valueFn.g(hass, data))
    ensures r.Err? <==> (d.key == TIMESTAMP_PRICES) != d.valueFn.OnHassData?
  {
    if d.key == TIMESTAMP_PRICES then
      match d.valueFn
      case OnHassData(g) => Ok(g(hass, data))
      case OnData(_) => Err(ArgumentCountMismatch)
    else
      match d.valueFn
      case OnData(f) => Ok(f(data))
      case OnHassData(_) => Err(ArgumentCountMismatch)
  }

  // ---------------------------------------------------------------------
  // Properties of the sensor table

  /**
   * A table the entity code can serve: known service types, only the
   * hourly string taking (hass, data), and no (service type, key) twice.
   */
  predicate WellFormedTable(table: seq<Description>) {
    && (forall i :: 0 <= i < |table| ==>
          table[i].serviceType == TODAY_GAS || table[i].serviceType == TODAY_ENERGY)
    && (forall i :: 0 <= i < |table| ==>
          (table[i].key == TIMESTAMP_PRICES <==> table[i].valueFn.OnHassData?))
    && DistinctKeys(table)
  }

  /** No (service type, key) pair occurs twice. */
  predicate DistinctKeys(table: seq<Description>) {
    forall i, j :: 0 <= i < j < |table| ==>
      table[i].serviceType != table[j].serviceType || table[i].key != table[j].key
  }

  lemma SensorsWellFormed()
    ensures WellFormedTable(SENSORS)
    ensures SENSORS[0].key == SENSORS[2].key == "current_hour_price"
    ensures SENSORS[1].key == SENSORS[3].key == "next_hour_price"
    ensures SENSORS[0].serviceType == SENSORS[1].serviceType == TODAY_GAS
    ensures SENSORS[2].serviceType == SENSORS[3].serviceType == TODAY_ENERGY
  {
    SensorsDistinctKeys();
  }

  lemma SensorsDistinctKeys()
    ensures DistinctKeys(SENSORS)
  {
  }

  /** `<service type>_<key>` determines both parts for the two known service types. */
  lemma ServiceKeyInjective(st1: string, k1: string, st2: string, k2: string)
    requires st1 == TODAY_GAS || st1 == TODAY_ENERGY
    requires st2 == TODAY_GAS || st2 == TODAY_ENERGY
    requires st1 + "_" + k1 == st2 + "_" + k2
    ensures st1 == st2 && k1 == k2
  {
    assert (st1 + "_" + k1)[6] == st1[6] && (st2 + "_" + k2)[6] == st2[6];
    PrefixCancel(st1 + "_", k1, k2);
  }

  lemma PrefixCancel(p: string, a: string, b: string)
    requires p + a == p + b
    ensures a == b
  {
    assert a == (p + a)[|p|..];
    assert b == (p + b)[|p|..];
  }

  /** Within one config entry, no two sensors of a well-formed table share a unique ID. */
  lemma UniqueIdsDistinct(table: seq<Description>, entryId: string)
    requires WellFormedTable(table)
    ensures forall i, j :: 0 <= i < j < |table| ==> UniqueId(entryId, table[i]) != UniqueId(entryId, table[j])
  {
    forall i, j | 0 <= i < j < |table|
      ensures UniqueId(entryId, table[i]) != UniqueId(entryId, table[j])
    {
      DistinctAfterPrefix(entryId + "_", table[i], table[j]);
      assert UniqueId(entryId, table[i]) == entryId + "_" + (table[i].serviceType + "_" + table[i].key);
      assert UniqueId(entryId, table[j]) == entryId + "_" + (table[j].serviceType + "_" + table[j].key);
    }
  }

  /** No two sensors of a well-formed table share an entity ID. */
  lemma EntityIdsDistinct(table: seq<Description>, domain: string)
    requires WellFormedTable(table)
    ensures forall i, j :: 0 <= i < j < |table| ==> EntityId(domain, table[i]) != EntityId(domain, table[j])
  {
    forall i, j | 0 <= i < j < |table|
      ensures EntityId(domain, table[i]) != EntityId(domain, table[j])
    {
      var p := SENSOR_DOMAIN + "." + domain + "_";
      DistinctAfterPrefix(p, table[i], table[j]);
      assert EntityId(domain, table[i]) == p + (table[i].serviceType + "_" + table[i].key);
      assert EntityId(domain, table[j]) == p + (table[j].serviceType + "_" + table[j].key);
    }
  }

  /** Within one config entry, the twelve sensors have twelve different unique IDs. */
  lemma SensorsUniqueIds(entryId: string)
    ensures forall i, j :: 0 <= i < j < |SENSORS| ==> UniqueId(entryId, SENSORS[i]) != UniqueId(entryId, SENSORS[j])
  {
    SensorsWellFormed();
    UniqueIdsDistinct(SENSORS, entryId);
  }

  /** The twelve sensors have twelve different entity IDs. */
  lemma SensorsEntityIds(domain: string)
    ensures forall i, j :: 0 <= i < j < |SENSORS| ==> EntityId(domain, SENSORS[i]) != EntityId(domain, SENSORS[j])
  {
    SensorsWellFormed();
    EntityIdsDistinct(SENSORS, domain);
  }

  /** Two descriptions differing in service type or key stay apart behind a common prefix. */
  lemma DistinctAfterPrefix(p: string, a: Description, b: Description)
    requires a.serviceType == TODAY_GAS || a.serviceType == TODAY_ENERGY
    requires b.serviceType == TODAY_GAS || b.serviceType == TODAY_ENERGY
    requires a.serviceType != b.serviceType || a.key != b.key
    ensures p + (a.serviceType + "_" + a.key) != p + (b.serviceType + "_" + b.key)
  {
    if p + (a.serviceType + "_" + a.key) == p + (b.serviceType + "_" + b.key) {
      PrefixCancel(p, a.serviceType + "_" + a.key, b.serviceType + "_" + b.key);
      ServiceKeyInjective(a.serviceType, a.key, b.serviceType, b.key);
    }
  }

  /** Every sensor of a well-formed table gets the arguments its value function takes. */
  lemma DispatchMatchesArity(table: seq<Description>, hass: Hass, data: EnergyZeroData)
    requires WellFormedTable(table)
    ensures forall i :: 0 <= i < |table| ==> NativeValue(table[i], hass, data).Ok?
  {
  }

  /** Only the hourly string's state depends on Home Assistant. */
  lemma OnlyTimestampPricesReadsHass(hass: Hass, other: Hass, data: EnergyZeroData)
    ensures forall i :: 0 <= i < |SENSORS| && SENSORS[i].key != TIMESTAMP_PRICES ==>
      NativeValue(SENSORS[i], hass, data) == NativeValue(SENSORS[i], other, data)
  {
  }

  /** Without a gas series every gas sensor is unavailable. */
  lemma GasSensorsUnavailableWithoutGas(hass: Hass, data: EnergyZeroData)
    requires data.gasToday.None?
    ensures forall i :: 0 <= i < |SENSORS| && SENSORS[i].serviceType == TODAY_GAS ==>
      NativeValue(SENSORS[i], hass, data) == Ok(Unavailable)
  {
  }

  /** The electricity sensors do not look at the gas series. */
  lemma EnergySensorsIgnoreGas(hass: Hass, data: EnergyZeroData, other: EnergyZeroData)
    requires data.energyToday == other.energyToday
    ensures forall i :: 0 <= i < |SENSORS| && SENSORS[i].serviceType == TODAY_ENERGY ==>
      NativeValue(SENSORS[i], hass, data) == NativeValue(SENSORS[i], hass, other)
  {
  }

  /** The gas current-hour sensor: the library's current gas price, unavailable without gas. */
  lemma GasCurrentHourSensor(hass: Hass, data: EnergyZeroData)
    ensures SENSORS[0].serviceType == TODAY_GAS && SENSORS[0].key == "current_hour_price"
    ensures NativeValue(SENSORS[0], hass, data)
         == Ok(if data.gasToday.None? then Unavailable else OfPrice(data.gasToday.value.currentPrice))
  {
  }

  /** The gas next-hour sensor: the gas price one hour after the library's clock. */
  lemma GasNextHourSensor(hass: Hass, data: EnergyZeroData)
    ensures SENSORS[1].serviceType == TODAY_GAS && SENSORS[1].key == "next_hour_price"
    ensures NativeValue(SENSORS[1], hass, data) == Ok(OfPrice(GetGasPrice(data, 1)))
  {
  }

  /** The electricity next-hour sensor: the price one hour after the library's clock. */
  lemma EnergyNextHourSensor(hass: Hass, data: EnergyZeroData)
    ensures SENSORS[3].serviceType == TODAY_ENERGY && SENSORS[3].key == "next_hour_price"
    ensures NativeValue(SENSORS[3], hass, data)
         == Ok(OfPrice(data.energyToday.priceAt(data.energyToday.utcnow + 60)))
  {
  }

  /** The electricity current-hour sensor: the library's current electricity price. */
  lemma EnergyCurrentHourSensor(hass: Hass, data: EnergyZeroData)
    ensures SENSORS[2].serviceType == TODAY_ENERGY && SENSORS[2].key == "current_hour_price"
    ensures NativeValue(SENSORS[2], hass, data) == Ok(OfPrice(data.energyToday.currentPrice))
  {
  }

  /** The average-price sensor: the library's average of today's prices. */
  lemma AveragePriceSensor(hass: Hass, data: EnergyZeroData)
    ensures SENSORS[4].serviceType == TODAY_ENERGY && SENSORS[4].key == "average_price"
    ensures NativeValue(SENSORS[4], hass, data) == Ok(Price(data.energyToday.averagePrice))
  {
  }

  /** The highest-price sensor: the second of the library's (lowest, highest) pair. */
  lemma MaxPriceSensor(hass: Hass, data: EnergyZeroData)
    ensures SENSORS[5].serviceType == TODAY_ENERGY && SENSORS[5].key == "max_price"
    ensures NativeValue(SENSORS[5], hass, data) == Ok(Price(data.energyToday.extremePrices.1))
  {
  }

  /** The lowest-price sensor: the first of the library's (lowest, highest) pair. */
  lemma MinPriceSensor(hass: Hass, data: EnergyZeroData)
    ensures SENSORS[6].serviceType == TODAY_ENERGY && SENSORS[6].key == "min_price"
    ensures NativeValue(SENSORS[6], hass, data) == Ok(Price(data.energyToday.extremePrices.0))
  {
  }

  /** The time-of-highest-price sensor: an instant, as the library reports it. */
  lemma HighestPriceTimeSensor(hass: Hass, data: EnergyZeroData)
    ensures SENSORS[7].serviceType == TODAY_ENERGY && SENSORS[7].key == "highest_price_time"
    ensures NativeValue(SENSORS[7], hass, data) == Ok(Moment(data.energyToday.highestPriceTime))
  {
  }

  /** The time-of-lowest-price sensor: an instant, as the library reports it. */
  lemma LowestPriceTimeSensor(hass: Hass, data: EnergyZeroData)
    ensures SENSORS[8].serviceType == TODAY_ENERGY && SENSORS[8].key == "lowest_price_time"
    ensures NativeValue(SENSORS[8], hass, data) == Ok(Moment(data.energyToday.lowestPriceTime))
  {
  }

  /** The percentage-of-highest sensor: the library's percentage. */
  lemma PercentageOfMaxSensor(hass: Hass, data: EnergyZeroData)
    ensures SENSORS[9].serviceType == TODAY_ENERGY && SENSORS[9].key == "percentage_of_max"
    ensures NativeValue(SENSORS[9], hass, data) == Ok(Number(data.energyToday.pctOfMaxPrice))
  {
  }

  /** The hours-priced-equal-or-lower sensor: the library's count of hours. */
  lemma HoursPricedEqualOrLowerSensor(hass: Hass, data: EnergyZeroData)
    ensures SENSORS[10].serviceType == TODAY_ENERGY && SENSORS[10].key == "hours_priced_equal_or_lower"
    ensures NativeValue(SENSORS[10], hass, data) == Ok(Number(data.energyToday.hoursPricedEqualOrLower))
  {
  }

  /** The hourly string sensor shows the hourly string built in the configured zone. */
  lemma TimestampPricesSensor(hass: Hass, data: EnergyZeroData)
    ensures SENSORS[11].serviceType == TODAY_ENERGY && SENSORS[11].key == TIMESTAMP_PRICES
    ensures NativeValue(SENSORS[11], hass, data) == Ok(Text(ProcessTimestampPrices(hass, data)))
  {
  }

  // ---------------------------------------------------------------------
  // Worked examples of the hourly string

  /** One price at 00:00 UTC, shown in a zone one hour ahead. */
  lemma OneHourAheadExample(hass: Hass, data: EnergyZeroData)
    requires forall t :: hass.asLocal(t) == t + 60
    requires data.energyToday.prices == [(0, 24)]
    ensures ProcessTimestampPrices(hass, data) == "01:0.24"
  {
    assert LocalPrices(data.energyToday.prices, hass.asLocal) == [(60, 24)];
    assert Token((60, 24)) == "01:0.24";
  }

  /**
   * 22:00 and 23:00 UTC, one hour ahead, given in reverse order: the output
   * follows the local date and time, so 23:00 comes before 00:00 of the next day.
   */
  lemma PastMidnightExample(hass: Hass, data: EnergyZeroData)
    requires forall t :: hass.asLocal(t) == t + 60
    requires data.energyToday.prices == [(23 * 60, 25), (22 * 60, 30)]
    ensures ProcessTimestampPrices(hass, data) == "23:0.30" + "," + "00:0.25"
  {
    PastMidnightTokens(hass, data);
    RenderTwo(hass, data, "23:0.30", "00:0.25");
  }

  lemma PastMidnightTokens(hass: Hass, data: EnergyZeroData)
    requires forall t :: hass.asLocal(t) == t + 60
    requires data.energyToday.prices == [(23 * 60, 25), (22 * 60, 30)]
    ensures Tokens(SortedLocalPrices(hass, data)) == ["23:0.30", "00:0.25"]
  {
    PastMidnightSorted(hass, data);
    TokensTwo((23 * 60, 30), (24 * 60, 25));
    TokenEleven();
    TokenMidnight();
  }

  lemma TokenEleven()
    ensures Token((23 * 60, 30)) == "23:0.30"
  {
  }

  lemma TokenMidnight()
    ensures Token((24 * 60, 25)) == "00:0.25"
  {
  }

  lemma PastMidnightSorted(hass: Hass, data: EnergyZeroData)
    requires forall t :: hass.asLocal(t) == t + 60
    requires data.energyToday.prices == [(23 * 60, 25), (22 * 60, 30)]
    ensures SortedLocalPrices(hass, data) == [(23 * 60, 30), (24 * 60, 25)]
  {
    assert LocalPrices(data.energyToday.prices, hass.asLocal) == [(24 * 60, 25), (23 * 60, 30)];
  }

  /** The hourly string made of two tokens. */
  lemma RenderTwo(hass: Hass, data: EnergyZeroData, ta: string, tb: string)
    requires Tokens(SortedLocalPrices(hass, data)) == [ta, tb]
    ensures ProcessTimestampPrices(hass, data) == ta + "," + tb
  {
    JoinTwo(ta, tb);
  }

  /** The tokens of two local pairs, in order. */
  lemma TokensTwo(a: PairSort.Pair, b: PairSort.Pair)
    ensures Tokens([a, b]) == [Token(a), Token(b)]
  {
    assert [a, b][1..] == [b] && [b][1..] == [];
  }

  lemma JoinTwo(x: string, y: string)
    ensures Join([x, y], ',') == x + "," + y
  {
    assert [x, y][1..] == [y];
  }

  /**
   * Two UTC hours showing the same local time, 02:00, as when the clocks go
   * back: the two tokens are ordered by price.
   */
  lemma RepeatedHourExample(hass: Hass, data: EnergyZeroData)
    requires hass.asLocal(0) == 120 && hass.asLocal(60) == 120
    requires data.energyToday.prices == [(0, 30), (60, 20)]
    ensures ProcessTimestampPrices(hass, data) == "02:0.20" + "," + "02:0.30"
  {
    RepeatedHourTokens(hass, data);
    RenderTwo(hass, data, "02:0.20", "02:0.30");
  }

  lemma RepeatedHourTokens(hass: Hass, data: EnergyZeroData)
    requires hass.asLocal(0) == 120 && hass.asLocal(60) == 120
    requires data.energyToday.prices == [(0, 30), (60, 20)]
    ensures Tokens(SortedLocalPrices(hass, data)) == ["02:0.20", "02:0.30"]
  {
    RepeatedHourSorted(hass, data);
    TokensTwo((120, 20), (120, 30));
    TokenTwoTwenty();
    TokenTwoThirty();
  }

  lemma TokenTwoTwenty()
    ensures Token((120, 20)) == "02:0.20"
  {
  }

  lemma TokenTwoThirty()
    ensures Token((120, 30)) == "02:0.30"
  {
  }

  lemma RepeatedHourSorted(hass: Hass, data: EnergyZeroData)
    requires hass.asLocal(0) == 120 && hass.asLocal(60) == 120
    requires data.energyToday.prices == [(0, 30), (60, 20)]
    ensures SortedLocalPrices(hass, data) == [(120, 20), (120, 30)]
  {
    assert LocalPrices(data.energyToday.prices, hass.asLocal) == [(120, 30), (120, 20)];
  }
}

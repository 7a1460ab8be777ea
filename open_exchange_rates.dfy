/** The Open Exchange Rates provider, from an already decoded response body on: scaling the
    wire rate by the base currency's unit for the current rate and for every entry of a
    historic response, the query parameters and paths of its two requests, the timeouts
    it applies, and its self-registration. The HTTP GET and JSON.parse are not modelled;
    the decoded `rates` object is an input. */
module OpenExchangeRates {
  import opened Provider
  import opened Strings

  const EndpointUrl := "https://openexchangerates.org/api/"

  /** The name the provider registers itself under. */
  const RegisteredName := Sym("open_exchange_rates")

  /** Configuration defaults, in seconds. */
  const DefaultReadTimeout: real := 5.0
  const DefaultConnectionTimeout: real := 2.0

  /** A timeout entry of the configuration as Ruby holds it: absent (nil), `false`, or a
      number of seconds (an Integer or a Float such as 1.5). */
  datatype Setting = Unset | SetFalse | Seconds(seconds: real)

  /** The provider's entry of the process-wide configuration. */
  datatype Config = Config(appId: string, readTimeout: Setting, connectTimeout: Setting)

  /** One GET request: the path below the endpoint, the query parameters, and the read
      (`timeout`) and connect (`open_timeout`) timeouts in seconds. */
  datatype Request = Request(path: string, params: map<string, string>, readTimeout: real, openTimeout: real)

  /** The absolute URL of a request: its path resolved against the endpoint. */
  function Url(req: Request): string
  {
    EndpointUrl + req.path
  }

  /** A calendar date; month and day as Date#month and Date#day give them. */
  datatype Date = Date(year: int, month: nat, day: nat)

  /** What api_get ends with: the decoded `rates` object of the body, a Faraday error
      (timeout, connection refused, ...), a body JSON.parse rejects, or a decoded body
      without a `rates` object (the error answer the API gives for an invalid app_id or
      an exhausted quota; the connection raises on no HTTP status, so that body is
      decoded like any other). For the last, `error` is the message of the NoMethodError
      that indexing its missing `rates` raises. */
  datatype Response =
    | Body(rates: map<string, real>)
    | HttpFailure(inspect: string)
    | Unparsable(error: string)
    | NoRates(error: string)

  /** `body['rates'][code].to_d`: a code the body does not list reads as nil, and
      `nil.to_d` is zero. */
  function WireRate(rates: map<string, real>, code: string): real
  {
    if code in rates then rates[code] else 0.0
  }

  /** get_exchange_rate's result for a decoded body: the rate per smallest unit of the
      base currency, so multiplying it back by the base's subunit count gives the wire
      (whole-unit) rate. */
  function CurrentRate(table: CurrencyTable, rates: map<string, real>, base: string, target: string): (rate: real)
    ensures rate * (table(base) as real) == WireRate(rates, target)
    ensures target !in rates ==> rate == 0.0
  {
    var unit := GetCurrencyUnit(table, base);
    assert WireRate(rates, target) * unit * (table(base) as real)
        == WireRate(rates, target) * (unit * (table(base) as real));
    WireRate(rates, target) * unit
  }

  /** For a currency without subunits the rate is the wire rate; for a cent-based one it
      is the wire rate divided by 100. */
  lemma CurrentRateScaling(table: CurrencyTable, rates: map<string, real>, base: string, target: string)
    requires target in rates
    ensures table(base) == 1 ==> CurrentRate(table, rates, base, target) == rates[target]
    ensures table(base) == 100 ==> CurrentRate(table, rates, base, target) == rates[target] / 100.0
  {
  }

  /** get_historic_rate's result for a decoded body: one entry per key of `rates` (the
      keys the body lists, whatever was asked for), each scaled by the same base unit. */
  function HistoricRates(table: CurrencyTable, rates: map<string, real>, base: string): (historic: map<string, real>)
    ensures historic.Keys == rates.Keys
    ensures forall c :: c in historic ==> historic[c] * (table(base) as real) == rates[c]
  {
    var unit := GetCurrencyUnit(table, base);
    var historic := map c | c in rates :: rates[c] * unit;
    assert forall c :: c in historic ==> historic[c] * (table(base) as real) == rates[c] by {
      forall c | c in historic ensures historic[c] * (table(base) as real) == rates[c] {
        assert rates[c] * unit * (table(base) as real) == rates[c] * (unit * (table(base) as real));
      }
    }
    historic
  }

  /** Every entry of a historic response is the rate get_exchange_rate would give for
      that target from the same body. */
  lemma HistoricAgreesWithCurrent(table: CurrencyTable, rates: map<string, real>, base: string, c: string)
    requires c in rates
    ensures c in HistoricRates(table, rates, base)
    ensures HistoricRates(table, rates, base)[c] == CurrentRate(table, rates, base, c)
  {
  }

  /** get_exchange_rate as the failover loop sees it: a decoded body gives the scaled
      rate, a Faraday error is rescued by the loop, and neither JSON::ParserError nor the
      NoMethodError of a body without rates is. */
  function Respond(table: CurrencyTable, response: Response, base: string, target: string): (o: Outcome)
    ensures o.Ok? <==> response.Body?
    ensures response.Body? ==> o.rate * (table(base) as real) == WireRate(response.rates, target)
    ensures o.Transient? <==> response.HttpFailure?
    ensures response.HttpFailure? ==> o.inspect == response.inspect
    ensures response.Unparsable? || response.NoRates? ==> o == Fatal(response.error)
  {
    match response
    case Body(rates) => Ok(CurrentRate(table, rates, base, target))
    case HttpFailure(e) => Transient(e)
    case Unparsable(e) => Fatal(e)
    case NoRates(e) => Fatal(e)
  }

  /** `config[:read_timeout] || DEFAULT_READ_TIMEOUT`: nil and false fall back to the
      default; any number is kept (0 is truthy in Ruby, so a configured 0 is kept). */
  function ReadTimeout(config: Config): (t: real)
    ensures config.readTimeout.Seconds? ==> t == config.readTimeout.seconds
    ensures config.readTimeout == Unset || config.readTimeout == SetFalse ==> t == DefaultReadTimeout
  {
    match config.readTimeout
    case Seconds(v) => v
    case _ => DefaultReadTimeout
  }

  /** `config[:connect_timeout] || DEFAULT_CONNECTION_TIMEOUT`, read the same way. */
  function ConnectTimeout(config: Config): (t: real)
    ensures config.connectTimeout.Seconds? ==> t == config.connectTimeout.seconds
    ensures config.connectTimeout == Unset || config.connectTimeout == SetFalse ==> t == DefaultConnectionTimeout
  {
    match config.connectTimeout
    case Seconds(v) => v
    case _ => DefaultConnectionTimeout
  }

  /** What api_get adds to every request: the app_id parameter and both timeouts. */
  function Authorize(config: Config, path: string, params: map<string, string>): Request
  {
    Request(path, params["app_id" := config.appId], ReadTimeout(config), ConnectTimeout(config))
  }

  /** The request of get_exchange_rate. */
  function LatestRequest(config: Config, base: string, target: string): (req: Request)
    ensures req.path == "latest.json" && Url(req) == "https://openexchangerates.org/api/latest.json"
    ensures req.params.Keys == {"base", "symbols", "app_id"}
    ensures req.params["base"] == base && req.params["symbols"] == target
    ensures req.params["app_id"] == config.appId
    ensures req.readTimeout == ReadTimeout(config) && req.openTimeout == ConnectTimeout(config)
  {
    Authorize(config, "latest.json", map["base" := base, "symbols" := target])
  }

  /** `%Y`: at least four digits, and a sign before them for a year before 1 BC. */
  function FormatYear(year: int): string
  {
    if year < 0 then "-" + ZeroPad(Decimal(-year), 4) else ZeroPad(Decimal(year), 4)
  }

  /** `date.strftime('%Y-%m-%d')`. */
  function FormatDate(d: Date): string
  {
    FormatYear(d.year) + "-" + ZeroPad(Decimal(d.month), 2) + "-" + ZeroPad(Decimal(d.day), 2)
  }

  function HistoricPath(d: Date): string
  {
    "historical/" + FormatDate(d) + ".json"
  }

  /** The request of get_historic_rate. */
  function HistoricRequest(config: Config, base: string, targets: seq<string>, date: Date): (req: Request)
    ensures req.path == HistoricPath(date)
    ensures req.params.Keys == {"base", "symbols", "app_id"}
    ensures req.params["base"] == base
    ensures req.params["app_id"] == config.appId
    ensures req.readTimeout == ReadTimeout(config) && req.openTimeout == ConnectTimeout(config)
  {
    Authorize(config, HistoricPath(date), map["base" := base, "symbols" := Join(targets, ',')])
  }

  /** Where the three fields sit in `Y-M-D` when they are 4, 2 and 2 characters long. */
  lemma FieldPositions(y: string, m: string, dd: string)
    requires |y| == 4 && |m| == 2 && |dd| == 2
    ensures var f := y + "-" + m + "-" + dd;
      |f| == 10 && f[..4] == y && f[4] == '-' && f[5..7] == m && f[7] == '-' && f[8..] == dd
  {
  }

  /** `%Y-%m-%d` of a date from year 0 to 9999 is ten characters: four year digits, two
      month digits and two day digits, each zero-padded, that read back as the date. */
  lemma DateLayout(d: Date)
    requires 0 <= d.year < 10000 && 1 <= d.month <= 12 && 1 <= d.day <= 31
    ensures var f := FormatDate(d);
      && |f| == 10 && f[4] == '-' && f[7] == '-'
      && AllDigits(f[..4]) && Value(f[..4]) == d.year
      && AllDigits(f[5..7]) && Value(f[5..7]) == d.month
      && AllDigits(f[8..]) && Value(f[8..]) == d.day
  {
    var y := ZeroPad(Decimal(d.year), 4);
    var m := ZeroPad(Decimal(d.month), 2);
    var dd := ZeroPad(Decimal(d.day), 2);
    assert |y| == 4 && AllDigits(y) && Value(y) == d.year by { PaddedDecimal(d.year, 4); }
    assert |m| == 2 && AllDigits(m) && Value(m) == d.month by { PaddedDecimal(d.month, 2); }
    assert |dd| == 2 && AllDigits(dd) && Value(dd) == d.day by { PaddedDecimal(d.day, 2); }
    assert FormatDate(d) == y + "-" + m + "-" + dd;
    FieldPositions(y, m, dd);
  }

  /** The historic path is `historical/`, then `%Y-%m-%d` of the date, then `.json`. */
  lemma HistoricPathLayout(d: Date)
    requires 0 <= d.year < 10000 && 1 <= d.month <= 12 && 1 <= d.day <= 31
    ensures var p := HistoricPath(d);
      && |p| == 26
      && p[..11] == "historical/" && p[11..21] == FormatDate(d) && p[21..] == ".json"
      && p[15] == '-' && p[18] == '-'
  {
    DateLayout(d);
    var f := FormatDate(d);
    var p1 := "historical/" + f;
    assert HistoricPath(d) == p1 + ".json";
    assert p1[..11] == "historical/" && p1[11..] == f;
    assert (p1 + ".json")[11..21] == f;
    assert f[4] == (p1 + ".json")[15] && f[7] == (p1 + ".json")[18];
  }

  /** The `symbols` parameter of a historic request lists exactly the requested targets,
      in order, when none contains a comma; for no targets it is empty, which reads back
      as a single empty field. */
  lemma HistoricSymbolsRoundTrip(config: Config, base: string, targets: seq<string>, date: Date)
    requires forall i :: 0 <= i < |targets| ==> ',' !in targets[i]
    ensures targets != [] ==> Split(HistoricRequest(config, base, targets, date).params["symbols"], ',') == targets
    ensures targets == [] ==> HistoricRequest(config, base, targets, date).params["symbols"] == ""
    ensures targets == [] ==> Split(HistoricRequest(config, base, targets, date).params["symbols"], ',') == [""]
  {
    if targets != [] {
      SplitJoin(targets, ',');
    }
  }

  /** Loading the provider's file registers the class under :open_exchange_rates. */
  method Register(reg: Registry)
    modifies reg
    ensures reg.providers == old(reg.providers)[RegisteredName := OpenExchangeRatesClass]
    ensures reg.LoadProvider(RegisteredName) == Loaded(OpenExchangeRatesClass)
  {
    reg.RegisterProvider(RegisteredName, OpenExchangeRatesClass);
  }
}

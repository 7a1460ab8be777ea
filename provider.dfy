/** The provider registry and the pieces every provider shares: the class-level map from
    provider name to provider class, the currency-unit factor computed from a currency's
    subunits, and the base class's get_exchange_rate, which a provider class inherits when
    it does not define its own. */
module Provider {

  /** A provider name as a caller passes it. The registry is a Ruby hash, which keeps the
      Symbol :xe and the String 'xe' apart, so the two are distinct names here too. */
  datatype Name = Sym(id: string) | Str(text: string)
  {
    /** The text that string interpolation (`"#{name}"`) produces. */
    function ToS(): string
    {
      match this
      case Sym(s) => s
      case Str(s) => s
    }
  }

  /** The provider classes the library knows, plus any other class (or test double) a
      caller registers; `definesRate` says whether that class defines its own
      get_exchange_rate or inherits the base class's. register_provider accepts any
      object, but only Provider subclasses are modelled: an object outside that
      hierarchy without get_exchange_rate would raise NoMethodError rather than the
      base class's error (also an error the failover loop lets through). */
  datatype ProviderClass =
    | BaseClass
    | XeClass
    | OpenExchangeRatesClass
    | OtherClass(className: string, definesRate: bool)
  {
    predicate DefinesRate()
    {
      match this
      case BaseClass => false
      case OtherClass(_, defines) => defines
      case _ => true
    }
  }

  /** What one call of a provider's get_exchange_rate ends with: a rate, an exception the
      failover loop rescues (a Faraday::Error or one of its subclasses such as
      Faraday::ConnectionFailed; the text is the exception's `inspect`), or any other
      exception, which the loop lets through. */
  datatype Outcome = Ok(rate: real) | Transient(inspect: string) | Fatal(error: string)

  /** The remote side of a provider call, by provider class, base and target currency:
      HTTP, JSON decoding and everything else the provider does beyond this model. */
  type Network = (ProviderClass, string, string) -> Outcome

  /** How many of a currency's smallest units make one whole unit (USD 100, JPY 1). */
  type Subunits = n: nat | n >= 1 witness 1

  /** The currency table's subunit_to_unit, looked up by ISO code. */
  type CurrencyTable = string -> Subunits

  /** The factor a whole-unit rate is multiplied by to give the rate per smallest unit of
      the base currency: the reciprocal of the base currency's subunit count. */
  function GetCurrencyUnit(table: CurrencyTable, base: string): (unit: real)
    ensures 0.0 < unit <= 1.0
    ensures unit * (table(base) as real) == 1.0
  {
    1.0 / (table(base) as real)
  }

  lemma CurrencyUnitExamples(table: CurrencyTable)
    requires table("USD") == 100 && table("JPY") == 1
    ensures GetCurrencyUnit(table, "USD") == 0.01
    ensures GetCurrencyUnit(table, "JPY") == 1.0
  {
  }

  const NotImplemented := "method not implemented..."

  /** The base class's get_exchange_rate: it raises a RuntimeError (not a Faraday error)
      whatever the currencies. */
  function BaseGetExchangeRate(base: string, target: string): (o: Outcome)
    ensures o.Fatal? && o.error == NotImplemented
  {
    Fatal(NotImplemented)
  }

  /** Calls get_exchange_rate on a provider class: a class that defines it goes to the
      network, any other inherits the base class's, which raises. */
  function GetExchangeRate(klass: ProviderClass, network: Network, base: string, target: string): (o: Outcome)
    ensures !klass.DefinesRate() ==> o == Fatal(NotImplemented)
    ensures klass.DefinesRate() ==> o == network(klass, base, target)
  {
    if klass.DefinesRate() then network(klass, base, target) else BaseGetExchangeRate(base, target)
  }

  const LoadErrorSuffix := " did not load properly as a provider"

  /** The result of load_provider: the registered class, or the LoadError it raises. */
  datatype Loaded = Loaded(klass: ProviderClass) | LoadError(name: Name)
  {
    /** The LoadError's message: the name as interpolated, then the fixed phrase. */
    function Message(): (m: string)
      requires LoadError?
      ensures |m| == |name.ToS()| + |LoadErrorSuffix|
      ensures m[..|name.ToS()|] == name.ToS()
      ensures m[|name.ToS()|..] == LoadErrorSuffix
    {
      name.ToS() + LoadErrorSuffix
    }
  }

  /** The Provider class's class-level state: the `@providers` hash. */
  class Registry {
    var providers: map<Name, ProviderClass>

    /** The hash starts empty; providers add themselves when their files load. */
    constructor ()
      ensures providers == map[]
    {
      providers := map[];
    }

    /** register_provider: an unconditional upsert, so the last registration of a name
        wins and no other name's entry changes. */
    method RegisterProvider(name: Name, klass: ProviderClass)
      modifies this
      ensures providers == old(providers)[name := klass]
      ensures LoadProvider(name) == Loaded(klass)
      ensures forall n :: n != name ==> LoadProvider(n) == old(LoadProvider(n))
    {
      providers := providers[name := klass];
    }

    /** load_provider: the registered class, or a LoadError naming the missing provider.
        Looking up changes nothing. */
    function LoadProvider(name: Name): (r: Loaded)
      reads this
      ensures r.Loaded? <==> name in providers
      ensures r.Loaded? ==> r.klass == providers[name]
      ensures r.LoadError? ==> r.name == name
    {
      if name in providers then Loaded(providers[name]) else LoadError(name)
    }

    /** all: the registry hash itself, so its names are exactly those load_provider accepts,
        with the classes it returns. */
    function All(): (r: map<Name, ProviderClass>)
      reads this
      ensures forall n :: n in r <==> LoadProvider(n).Loaded?
      ensures forall n :: n in r ==> LoadProvider(n) == Loaded(r[n])
    {
      providers
    }
  }
}

# omni_exchange: provider registry and failover engine in Dafny

omni_exchange converts an amount from one currency to another. It asks a list of
exchange-rate providers for a rate, one at a time, and moves to the next provider when
one fails with a network error. This project models the library's decision logic and
proves properties about it:

- **Provider registry** (`Provider` module, `provider.dfy`). The `Provider.Registry`
  class holds the class-level `@providers` hash. It has `RegisterProvider` (an upsert),
  `LoadProvider` (a lookup that raises `LoadError` for an unknown name) and `All`.
  The module also holds the currency-unit factor `GetCurrencyUnit`, which is
  `1 / subunit_to_unit`. It also holds the base class's `get_exchange_rate`, which
  always raises, and the dispatch that sends a class without its own
  `get_exchange_rate` to that base method.
- **Failover engine** (`OmniExchange` module, `omni_exchange.dfy`). `ExchangeCurrency`
  is `exchange_currency` written as a loop. Every name is resolved first. The providers
  are then called in list order. The loop returns `rate * amount` on the first rate. It
  skips a provider and records its message only for a Faraday error, and it lets every
  other error through. The method is proved equal to two specification functions:
  `ExchangeOutcome` (the result) and `Called` (the providers called, in call order).
  The lemmas state what these mean for a caller.
- **Open Exchange Rates** (`OpenExchangeRates` module, `open_exchange_rates.dfy`). This
  covers what the provider does with an already decoded body. The current rate and
  every historic entry are scaled by the base currency's unit. The module also builds
  the request paths and parameters, takes the timeouts from configuration with their
  defaults, and registers the provider as `:open_exchange_rates`.
- **Text helpers** (`Strings` module, `strings.dfy`). `Array#join` with its inverse,
  and the zero-padded decimal numbers `Date#strftime` prints, with their values.

Modelling choices:

- A provider name is a Ruby Symbol or a String (`Sym("xe")`, `Str("slow_xe")`). The
  registry hash keeps `:xe` and `'xe'` apart, so the model does too.
- One provider call is abstracted as an `Outcome`: `Ok(rate)`, `Transient(inspect)` or
  `Fatal(error)`. `Transient` is a `Faraday::Error` or a subclass of it such as
  `Faraday::ConnectionFailed`; its text is `e.inspect`. `Fatal` is any other exception.
  The remote side is a function parameter `Network` from provider class and currency
  pair to outcome.
- The currency table (RubyMoney's `subunit_to_unit`) is a function parameter from
  currency code to a positive whole number.
- Rates and amounts are exact reals.

In these places the model follows the code:

- `JSON::ParserError` and `XeMonthlyLimit` are not Faraday errors. They therefore
  propagate out of the loop (`lib/omni_exchange.rb:59`) and are not skipped as transient
  failures.
- The engine validates no currency. A successful call returns only the converted
  amount: there is no raw rate and no source provider in the result.
- The provider list is not required to be non-empty. An empty list falls straight
  through to the exhaustion raise.
- For a target the decoded body does not list, Open Exchange Rates returns rate 0
  rather than failing. `body['rates'][target]` is nil, and `nil.to_d` is zero
  (`lib/omni_exchange/providers/open_exchange_rates.rb:26`).
- An invalid app_id or an exhausted quota is fatal, not transient. Open Exchange Rates
  answers these with an error body that has no `rates` object. The connection
  (`lib/omni_exchange/providers/open_exchange_rates.rb:49`) raises on no HTTP status,
  so the body is decoded like any other. Line 26 then raises NoMethodError on nil, and
  the loop lets that through.

## Model

| member | source | states |
|---|---|---|
| `Provider.GetCurrencyUnit` | lib/omni_exchange/provider.rb:50-52 | the unit is the reciprocal of the base currency's subunit count (unit × subunits = 1), so it lies in (0, 1] |
| `Provider.CurrencyUnitExamples` | spec/omni_exchange/provider_spec.rb:17-20 | with USD at 100 subunits and JPY at 1, the units are 0.01 and 1 |
| `Provider.BaseGetExchangeRate` | lib/omni_exchange/provider.rb:39-41 | the base class's get_exchange_rate always raises "method not implemented...", which is not a Faraday error, for any currencies |
| `Provider.GetExchangeRate` | lib/omni_exchange/provider.rb:37-41 | a class that defines get_exchange_rate answers from the network; any other inherits the base class's raise |
| `Provider.Loaded.Message` | lib/omni_exchange/provider.rb:29 | the LoadError message is the name as interpolated, followed by " did not load properly as a provider" |
| `Provider.Registry.constructor` | lib/omni_exchange/provider.rb:6 | the registry starts empty |
| `Provider.Registry.RegisterProvider` | lib/omni_exchange/provider.rb:14-16 | after registering, load_provider of that name returns the class (the last registration wins); every other name loads exactly as before |
| `Provider.Registry.LoadProvider` | lib/omni_exchange/provider.rb:25-30 | returns the registered class exactly when the name is registered; otherwise a LoadError naming it; the registry is only read |
| `Provider.Registry.All` | lib/omni_exchange/provider.rb:33-35 | the map's names are exactly the names load_provider accepts, mapped to the classes it returns |
| `OpenExchangeRates.CurrentRate` | lib/omni_exchange/providers/open_exchange_rates.rb:26-29 | the returned rate times the base's subunit count gives back the wire rate (a per-smallest-unit rate); a target missing from the body gives 0 |
| `OpenExchangeRates.CurrentRateScaling` | lib/omni_exchange/providers/open_exchange_rates.rb:26-29 | for a base without subunits the rate is the wire rate; for a cent-based base it is the wire rate divided by 100 |
| `OpenExchangeRates.HistoricRates` | lib/omni_exchange/providers/open_exchange_rates.rb:40-43 | the result has exactly the keys of the body's rates, and each value times the base's subunit count is that key's wire rate |
| `OpenExchangeRates.HistoricAgreesWithCurrent` | lib/omni_exchange/providers/open_exchange_rates.rb:40-43 | every historic entry equals the current-rate computation for that target from the same body |
| `OpenExchangeRates.Respond` | lib/omni_exchange/providers/open_exchange_rates.rb:19-30 | only a decoded body with rates gives a rate, which is the scaled wire rate; only a Faraday failure gives a rescued error, with its text; unparsable JSON and a body without `rates` give errors the loop lets through |
| `OpenExchangeRates.ReadTimeout` | lib/omni_exchange/providers/open_exchange_rates.rb:56-57 | the read timeout is the configured number of seconds whenever one is set (0 and fractions included); nil or false gives the default 5 |
| `OpenExchangeRates.ConnectTimeout` | lib/omni_exchange/providers/open_exchange_rates.rb:58-59 | the connect timeout is the configured number of seconds whenever one is set; nil or false gives the default 2 |
| `OpenExchangeRates.LatestRequest` | lib/omni_exchange/providers/open_exchange_rates.rb:20-24 | the current-rate request goes to https://openexchangerates.org/api/latest.json with exactly the params base, symbols (the target) and app_id, and with the configured timeouts |
| `OpenExchangeRates.HistoricRequest` | lib/omni_exchange/providers/open_exchange_rates.rb:33-38 | the historic request goes to the date's historical path with exactly the params base, symbols and app_id, and with the configured timeouts |
| `OpenExchangeRates.DateLayout` | lib/omni_exchange/providers/open_exchange_rates.rb:34 | for years 0–9999, `%Y-%m-%d` has 10 characters; the zero-padded year, month and day digits sit at fixed positions and read back as the date |
| `OpenExchangeRates.HistoricPathLayout` | lib/omni_exchange/providers/open_exchange_rates.rb:34 | the path is `historical/`, then the 10-character date, then `.json` (26 characters) |
| `OpenExchangeRates.HistoricSymbolsRoundTrip` | lib/omni_exchange/providers/open_exchange_rates.rb:37 | splitting the symbols parameter at commas gives back exactly the targets, in input order, when none contains a comma; for no targets the parameter is empty |
| `OpenExchangeRates.Register` | lib/omni_exchange/providers/open_exchange_rates.rb:72 | loading the provider registers the class under :open_exchange_rates and changes no other entry |
| `OmniExchange.ResolveAll` | lib/omni_exchange.rb:51-52 | resolution succeeds exactly when every name is registered, giving their classes in list order; otherwise it fails with the first unregistered name |
| `OmniExchange.ExchangeCurrency` | lib/omni_exchange.rb:48-64 | the loop's result and its list of called providers are exactly those of the specification ExchangeOutcome and Called |
| `OmniExchange.MessagesOfTransients` | lib/omni_exchange.rb:59-60 | when every outcome is a rescued error, the collected messages are their texts, one per outcome, in order |
| `OmniExchange.UnregisteredNameCallsNoProvider` | lib/omni_exchange.rb:51-52 | the call fails to load exactly when some name is unregistered, wherever it stands; then no provider is called and the error names the first such name |
| `OmniExchange.FirstRateWins` | lib/omni_exchange.rb:55-58 | if provider k answers a rate and all before it failed with Faraday errors, the result is that rate × amount and provider k is the last one called |
| `OmniExchange.ConvertedOnlyFromFirstRate` | lib/omni_exchange.rb:55-58 | every converted result is rate × amount for the first provider that did not fail, and no later provider was called |
| `OmniExchange.FatalErrorPropagates` | lib/omni_exchange.rb:59 | a non-Faraday error from provider k, after Faraday errors only, is the call's result, and no later provider is called |
| `OmniExchange.ExhaustionCollectsEveryMessage` | lib/omni_exchange.rb:49-61 | the call is exhausted exactly when every provider fails with a Faraday error; then each is called once, and the messages are one per provider, in attempt order |
| `OmniExchange.ExhaustedExactlyWhenEveryCallFails` | lib/omni_exchange.rb:49-61 | a call is exhausted exactly when every name is registered and every provider's get_exchange_rate fails with a Faraday error |
| `OmniExchange.CallsFollowListOrder` | lib/omni_exchange.rb:55-56 | the providers called are a prefix of the list's classes: list order, each position at most once |
| `OmniExchange.UndefinedRateStopsFailover` | lib/omni_exchange.rb:56-59 | a first class without its own get_exchange_rate ends the call with "method not implemented...", and it is the only class called |
| `OmniExchange.ExhaustedMessage` | lib/omni_exchange.rb:63 | the intended aggregate message starts with "Failed to load BASE->TARGET:" and a newline |
| `OmniExchange.ExhaustedMessageListsEveryError` | lib/omni_exchange.rb:63 | the lines after that header are exactly the collected messages, in attempt order; with no messages (an empty provider list) the message is the header alone |
| `OmniExchange.AsWrittenExhaustionRaisesNameError` | lib/omni_exchange.rb:63 | with one registered provider that times out, the source as written raises NameError, where the corrected model returns the aggregate with its one message |
| `OmniExchange.ExchangeOutcomeAsWritten` | lib/omni_exchange.rb:48-64 | as written, a call raises NameError for `exception_messages` exactly when every name is registered and every provider fails with a Faraday error (an empty list included); the aggregate error is never raised; every other call ends as the corrected one |
| `OmniExchange.TimeoutFailsOverToOpenExchangeRates` | spec/omni_exchange_spec.rb:48-60 | a 'slow_xe' double raising Faraday::Error is skipped, Open Exchange Rates is called next, and 100 JPY converts at the body's KRW rate; exactly these two are called |
| `OmniExchange.UnregisteredFirstNameStopsCall` | spec/omni_exchange_spec.rb:38-45 | an unregistered first name raises LoadError even though :open_exchange_rates follows, and nothing is called |
| `OmniExchange.LoadProviders` | lib/omni_exchange.rb:3-7 | loading the library registers :open_exchange_rates and then :xe, so `all` contains both |

## Findings

| source | as written | input that shows it | evidently intended | confidence | as-written member | corrected member |
|---|---|---|---|---|---|---|
| lib/omni_exchange.rb:63 | the exhaustion raise interpolates `exception_messages`, but the accumulator is `error_messages` (lines 49, 60), so the raise itself fails with NameError and the collected messages are lost | providers `[:xe]`, with xe raising `Faraday::ConnectionFailed` | raise "Failed to load BASE->TARGET:" followed by every collected message, one per line | high (not executed) | `OmniExchange.ExchangeOutcomeAsWritten` | `OmniExchange.ExhaustionCollectsEveryMessage` |

## Left out

- HTTP and JSON decoding are left out because they are foreign I/O. This covers the
  Faraday connection, `api_get`'s GET and `JSON.parse`
  (lib/omni_exchange/providers/open_exchange_rates.rb:48-63). The decoded `rates`
  object is an input. Failed requests enter as `Response` values.
- lib/omni_exchange/providers/xe.rb is an HTTP call; only its self-registration as
  :xe is modelled. In the engine, its Faraday re-raise is a `Transient` outcome and
  `XeMonthlyLimit` (code 3) is a `Fatal` one.
- `OpenExchangeRates.ReadTimeout` takes a configured timeout as nil, false or a number
  of seconds. Other truthy values, such as a String or `true`, are also kept by `||` and
  passed to Faraday; they are not modelled.
- `OpenExchangeRates.ConnectTimeout` takes its setting in the same three forms, for
  the same reason.
- `OpenExchangeRates.HistoricRates` starts from a decoded `rates` object. A historic
  answer without one, where line 41 raises NoMethodError, is not modelled, because
  get_historic_rate is not called by the failover loop.
- `Provider.GetExchangeRate` covers Provider subclasses only. An object registered
  from outside that hierarchy without get_exchange_rate would raise NoMethodError
  instead of "method not implemented...". That is also not a Faraday error, so the
  loop ends the same way, only with another message.
- The process-wide configuration storage is left out (`OmniExchange.configure`,
  `configuration`, lib/omni_exchange/configuration.rb). The provider's entry is an
  input `Config`. A missing entry, which raises NoMethodError in the source, is not
  modelled.
- The RubyMoney currency table is a library call. It is a parameter here. The
  exception `Money::Currency.wrap` raises for an unknown code is not modelled.
- Float and BigDecimal rounding (`1.0 / n`, `.to_d`) are left out. All arithmetic is
  exact.
- `Provider.Registry.LoadProvider` does not model a name registered with nil or false
  as its class. Ruby's truthiness check raises LoadError for that; here a registered
  class is never nil.
- `OmniExchange.ExchangeCurrency` does not model a provider that answers differently
  to two calls in one exchange. `Network` is a function, so a class listed twice
  gives the same outcome both times.
- `OmniExchange.ExchangeCurrency` takes `amount` as a number. An amount without a
  `to_d` method raises NoMethodError, which the loop lets through; that case is not
  modelled. A String or nil amount converts the way `to_d` reads it (for example,
  "abc" and nil both give 0), and `amount` can stand for that value.
- `Provider.Registry.All` returns the map as a value. Ruby's `all` returns the live
  `@providers` hash, so a caller that mutates the result also mutates the registry.
  That aliasing is not modelled; nothing in the library relies on it.
- The `inspect` text of a Faraday error is taken as the outcome carries it. Ruby's
  exception formatting is not modelled.
- `OpenExchangeRates.DateLayout` is stated for years 0 to 9999. `FormatYear` also models
  the sign and the longer numerals of other years, but nothing is proved about them.
- `OmniExchange.ExhaustedMessageListsEveryError` is stated only for messages without
  a newline, because a newline inside a message cannot be told apart from the
  separator.
- `OmniExchange.get_exchange_rate`, which spec/omni_exchange_spec.rb:64-89 calls, is
  not defined in lib/omni_exchange.rb. It is not part of this model.
- `UnknownCurrency` (lib/omni_exchange/error.rb:5) is never raised by the modelled
  code, and the engine has no currency-validation step.

/** exchange_currency: resolve every requested provider name up front, then ask the
    resolved providers for a rate one at a time, in list order, rescuing only Faraday
    errors, and return `rate * amount` from the first that answers.

    ExchangeOutcome and Called are the specification of one call; ExchangeCurrency is the
    loop, proved to meet them; the lemmas below them state what the specification means
    for the caller. */
module OmniExchange {
  import opened Provider
  import OpenExchangeRates
  import opened Strings

  /** `providers.map { |p| load_provider(p) }`: every class, or the first name
      load_provider raised for. */
  datatype Resolution = Resolved(klasses: seq<ProviderClass>) | Unresolved(name: Name)

  /** How one call of exchange_currency ends. AllFailed is the intended aggregate error
      when every provider failed with a Faraday error; NameError is what the source as
      written raises instead (see ExchangeOutcomeAsWritten). */
  datatype ExchangeResult =
    | Converted(amount: real)
    | LoadFailed(name: Name)
    | Propagated(error: string)
    | AllFailed(errorMessages: seq<string>)
    | NameError(identifier: string)

  function ResolveAll(reg: Registry, names: seq<Name>): (r: Resolution)
    reads reg
    ensures r.Resolved? <==> forall i :: 0 <= i < |names| ==> names[i] in reg.providers
    ensures r.Resolved? ==> |r.klasses| == |names|
    ensures r.Resolved? ==> forall i :: 0 <= i < |names| ==> r.klasses[i] == reg.providers[names[i]]
    ensures r.Unresolved? ==> r.name !in reg.providers
    ensures r.Unresolved? ==>
      exists k :: 0 <= k < |names| && names[k] == r.name && (forall j :: 0 <= j < k ==> names[j] in reg.providers)
    decreases |names|
  {
    if names == [] then Resolved([])
    else match reg.LoadProvider(names[0])
      case LoadError(n) =>
        assert names[0] == n;
        Unresolved(n)
      case Loaded(k) =>
        var rest := ResolveAll(reg, names[1..]);
        match rest
        case Unresolved(n) =>
          Unresolved(n)
        case Resolved(ks) => Resolved([k] + ks)
  }

  /** What each resolved provider's get_exchange_rate would end with, in list order. */
  function Outcomes(klasses: seq<ProviderClass>, network: Network, base: string, target: string): seq<Outcome>
  {
    seq(|klasses|, i requires 0 <= i < |klasses| => GetExchangeRate(klasses[i], network, base, target))
  }

  /** The index of the first outcome the loop does not rescue, or the length when it
      rescues them all. */
  function Decisive(os: seq<Outcome>): (k: nat)
    ensures k <= |os|
    ensures forall j :: 0 <= j < k ==> os[j].Transient?
    ensures k < |os| ==> !os[k].Transient?
    decreases |os|
  {
    if os == [] || !os[0].Transient? then 0 else 1 + Decisive(os[1..])
  }

  /** The `e.inspect` texts of the rescued outcomes, in order. */
  function Messages(os: seq<Outcome>): seq<string>
    decreases |os|
  {
    if os == [] then []
    else (if os[0].Transient? then [os[0].inspect] else []) + Messages(os[1..])
  }

  /** How many providers the loop calls: up to and including the decisive one. */
  function Attempts(os: seq<Outcome>): nat
  {
    if Decisive(os) < |os| then Decisive(os) + 1 else |os|
  }

  function ExhaustedHeader(base: string, target: string): string
  {
    "Failed to load " + base + "->" + target + ":\n"
  }

  /** The RuntimeError message the intended raise builds: a header naming the currency
      pair, then the collected messages, one per line. */
  function ExhaustedMessage(base: string, target: string, errorMessages: seq<string>): (m: string)
    ensures |m| >= |ExhaustedHeader(base, target)|
    ensures m[..|ExhaustedHeader(base, target)|] == ExhaustedHeader(base, target)
  {
    ExhaustedHeader(base, target) + Join(errorMessages, '\n')
  }

  /** The lines after the header are exactly the collected messages, in attempt order,
      when none spans several lines; with no messages (an empty provider list) nothing
      follows the header. */
  lemma ExhaustedMessageListsEveryError(base: string, target: string, errorMessages: seq<string>)
    requires forall i :: 0 <= i < |errorMessages| ==> '\n' !in errorMessages[i]
    ensures errorMessages != [] ==>
      Split(ExhaustedMessage(base, target, errorMessages)[|ExhaustedHeader(base, target)|..], '\n') == errorMessages
    ensures errorMessages == [] ==>
      ExhaustedMessage(base, target, errorMessages) == ExhaustedHeader(base, target)
  {
    var head := ExhaustedHeader(base, target);
    assert ExhaustedMessage(base, target, errorMessages)[|head|..] == Join(errorMessages, '\n');
    if errorMessages != [] {
      SplitJoin(errorMessages, '\n');
    } else {
      assert head + "" == head;
    }
  }

  function Failover(os: seq<Outcome>, amount: real): ExchangeResult
  {
    var k := Decisive(os);
    if k == |os| then AllFailed(Messages(os))
    else if os[k].Ok? then Converted(os[k].rate * amount)
    else Propagated(os[k].error)
  }

  /** The result of exchange_currency (with the exhaustion message fixed). */
  function ExchangeOutcome(reg: Registry, network: Network, amount: real, base: string, target: string, providers: seq<Name>): ExchangeResult
    reads reg
  {
    match ResolveAll(reg, providers)
    case Unresolved(n) => LoadFailed(n)
    case Resolved(ks) => Failover(Outcomes(ks, network, base, target), amount)
  }

  /** The provider classes exchange_currency calls get_exchange_rate on, in call order. */
  function Called(reg: Registry, network: Network, base: string, target: string, providers: seq<Name>): seq<ProviderClass>
    reads reg
  {
    match ResolveAll(reg, providers)
    case Unresolved(_) => []
    case Resolved(ks) => ks[..Attempts(Outcomes(ks, network, base, target))]
  }

  /** The result of exchange_currency as the source is written. The raise after the loop
      builds its message from `exception_messages`, but the accumulator is named
      `error_messages`, so evaluating the message raises NameError and the collected
      messages are lost: the call raises NameError exactly when every name is registered
      and every provider fails with a Faraday error (an empty list included), and the
      aggregate error is never raised. Every other call ends as the corrected one does. */
  function ExchangeOutcomeAsWritten(reg: Registry, network: Network, amount: real, base: string, target: string, providers: seq<Name>): (r: ExchangeResult)
    reads reg
    ensures !r.AllFailed?
    ensures r.NameError? ==> r.identifier == "exception_messages"
    ensures r.NameError? <==>
      forall i :: 0 <= i < |providers| ==>
        providers[i] in reg.providers && GetExchangeRate(reg.providers[providers[i]], network, base, target).Transient?
    ensures !r.NameError? ==> r == ExchangeOutcome(reg, network, amount, base, target, providers)
  {
    ExhaustedExactlyWhenEveryCallFails(reg, network, amount, base, target, providers);
    var fixed := ExchangeOutcome(reg, network, amount, base, target, providers);
    if fixed.AllFailed? then NameError("exception_messages") else fixed
  }

  lemma {:induction false} MessagesAppend(a: seq<Outcome>, b: seq<Outcome>)
    ensures Messages(a + b) == Messages(a) + Messages(b)
    decreases |a|
  {
    if a == [] {
      assert a + b == b;
    } else {
      assert (a + b)[0] == a[0];
      assert (a + b)[1..] == a[1..] + b;
      MessagesAppend(a[1..], b);
    }
  }

  /** When every outcome is a rescued error, the collected messages are their
      `inspect` texts, one per outcome, in order. */
  lemma {:induction false} MessagesOfTransients(os: seq<Outcome>)
    requires forall i :: 0 <= i < |os| ==> os[i].Transient?
    ensures |Messages(os)| == |os|
    ensures forall i :: 0 <= i < |os| ==> Messages(os)[i] == os[i].inspect
    decreases |os|
  {
    if os != [] {
      MessagesOfTransients(os[1..]);
      assert Messages(os) == [os[0].inspect] + Messages(os[1..]);
    }
  }

  /** exchange_currency. Resolution happens first and in full; the loop then calls the
      providers in order, returns on the first rate, lets any non-Faraday error through,
      and records one message per Faraday error. The source returns only the amount;
      `called` is ghost bookkeeping of the providers asked, for the proofs. */
  method ExchangeCurrency(reg: Registry, network: Network, amount: real, base: string, target: string, providers: seq<Name>)
    returns (result: ExchangeResult, ghost called: seq<ProviderClass>)
    ensures result == ExchangeOutcome(reg, network, amount, base, target, providers)
    ensures called == Called(reg, network, base, target, providers)
  {
    var errorMessages: seq<string> := [];
    called := [];
    var resolution := ResolveAll(reg, providers);
    if resolution.Unresolved? {
      result := LoadFailed(resolution.name);
      return;
    }
    var providerClasses := resolution.klasses;
    ghost var os := Outcomes(providerClasses, network, base, target);
    var i := 0;
    while i < |providerClasses|
      invariant 0 <= i <= |providerClasses|
      invariant forall j :: 0 <= j < i ==> os[j].Transient?
      invariant errorMessages == Messages(os[..i])
      invariant called == providerClasses[..i]
    {
      var klass := providerClasses[i];
      called := called + [klass];
      var outcome := GetExchangeRate(klass, network, base, target);
      assert outcome == os[i];
      match outcome {
        case Ok(rate) =>
          assert Decisive(os) == i;
          result := Converted(rate * amount);
          return;
        case Fatal(e) =>
          assert Decisive(os) == i;
          result := Propagated(e);
          return;
        case Transient(m) =>
          assert os[..i + 1] == os[..i] + [os[i]];
          MessagesAppend(os[..i], [os[i]]);
          assert Messages([os[i]]) == [m];
          errorMessages := errorMessages + [m];
      }
      i := i + 1;
    }
    assert os[..i] == os;
    assert providerClasses[..i] == providerClasses;
    result := AllFailed(errorMessages);
  }

  /** A name that is not registered is fatal before any provider is called, wherever it
      stands in the list; the error names the first such name. */
  lemma UnregisteredNameCallsNoProvider(reg: Registry, network: Network, amount: real, base: string, target: string, providers: seq<Name>)
    ensures ExchangeOutcome(reg, network, amount, base, target, providers).LoadFailed?
        <==> exists i :: 0 <= i < |providers| && providers[i] !in reg.providers
    ensures ExchangeOutcome(reg, network, amount, base, target, providers).LoadFailed? ==>
      var n := ExchangeOutcome(reg, network, amount, base, target, providers).name;
      && Called(reg, network, base, target, providers) == []
      && n !in reg.providers
      && exists k :: 0 <= k < |providers| && providers[k] == n && forall j :: 0 <= j < k ==> providers[j] in reg.providers
  {
  }

  /** The value returned is `rate * amount` for the rate of the first provider that
      answers, provided every provider before it failed with a Faraday error; that
      provider is the last one called. */
  lemma FirstRateWins(os: seq<Outcome>, amount: real, k: nat)
    requires k < |os| && os[k].Ok?
    requires forall j :: 0 <= j < k ==> os[j].Transient?
    ensures Failover(os, amount) == Converted(os[k].rate * amount)
    ensures Attempts(os) == k + 1
  {
  }

  /** Conversely, every converted amount comes from such a provider. */
  lemma ConvertedOnlyFromFirstRate(os: seq<Outcome>, amount: real)
    requires Failover(os, amount).Converted?
    ensures exists k :: (0 <= k < |os| && os[k].Ok? && Failover(os, amount).amount == os[k].rate * amount
      && (forall j :: 0 <= j < k ==> os[j].Transient?) && Attempts(os) == k + 1)
  {
  }

  /** An error that is not a Faraday error ends the call at once with that error: no
      later provider is called. */
  lemma FatalErrorPropagates(os: seq<Outcome>, amount: real, k: nat)
    requires k < |os| && os[k].Fatal?
    requires forall j :: 0 <= j < k ==> os[j].Transient?
    ensures Failover(os, amount) == Propagated(os[k].error)
    ensures Attempts(os) == k + 1
  {
  }

  /** The call is exhausted exactly when every provider failed with a Faraday error; then
      every provider was called once, in order, and the collected messages are theirs,
      one per provider, in attempt order. */
  lemma ExhaustionCollectsEveryMessage(os: seq<Outcome>, amount: real)
    ensures Failover(os, amount).AllFailed? <==> forall i :: 0 <= i < |os| ==> os[i].Transient?
    ensures Failover(os, amount).AllFailed? ==>
      && Attempts(os) == |os|
      && |Failover(os, amount).errorMessages| == |os|
      && forall i :: 0 <= i < |os| ==> Failover(os, amount).errorMessages[i] == os[i].inspect
  {
    if forall i :: 0 <= i < |os| ==> os[i].Transient? {
      assert Decisive(os) == |os|;
      MessagesOfTransients(os);
    } else {
      var i :| 0 <= i < |os| && !os[i].Transient?;
      assert Decisive(os) <= i;
    }
  }

  /** In the caller's terms: a call is exhausted exactly when every name is registered
      and every provider's get_exchange_rate fails with a Faraday error. */
  lemma ExhaustedExactlyWhenEveryCallFails(reg: Registry, network: Network, amount: real, base: string, target: string, providers: seq<Name>)
    ensures ExchangeOutcome(reg, network, amount, base, target, providers).AllFailed? <==>
      forall i :: 0 <= i < |providers| ==>
        providers[i] in reg.providers && GetExchangeRate(reg.providers[providers[i]], network, base, target).Transient?
  {
    var res := ResolveAll(reg, providers);
    if res.Resolved? {
      var os := Outcomes(res.klasses, network, base, target);
      ExhaustionCollectsEveryMessage(os, amount);
      assert forall i :: 0 <= i < |providers| ==> os[i] == GetExchangeRate(reg.providers[providers[i]], network, base, target);
    }
  }

  /** Providers are called in list order, each position at most once: the calls are a
      prefix of the resolved classes, and the call list is empty when resolution fails. */
  lemma CallsFollowListOrder(reg: Registry, network: Network, base: string, target: string, providers: seq<Name>)
    ensures var c := Called(reg, network, base, target, providers);
      && |c| <= |providers|
      && forall i :: 0 <= i < |c| ==> providers[i] in reg.providers && c[i] == reg.providers[providers[i]]
  {
  }

  /** A registered class that does not define get_exchange_rate inherits the base
      class's, which raises; that error is not rescued, so a failover list whose first
      class is such a class calls nothing else. */
  lemma UndefinedRateStopsFailover(reg: Registry, network: Network, amount: real, base: string, target: string, providers: seq<Name>)
    requires |providers| >= 1
    requires forall i :: 0 <= i < |providers| ==> providers[i] in reg.providers
    requires !reg.providers[providers[0]].DefinesRate()
    ensures ExchangeOutcome(reg, network, amount, base, target, providers) == Propagated(NotImplemented)
    ensures Called(reg, network, base, target, providers) == [reg.providers[providers[0]]]
  {
  }

  /** As written, a call whose providers all fail with Faraday errors raises NameError
      instead of the aggregate error: one registered provider that times out is enough. */
  lemma AsWrittenExhaustionRaisesNameError(reg: Registry, network: Network, amount: real)
    requires reg.providers == map[Sym("xe") := XeClass]
    requires network(XeClass, "USD", "JPY") == Transient("#<Faraday::ConnectionFailed: xe.com has timed out.>")
    ensures ExchangeOutcomeAsWritten(reg, network, amount, "USD", "JPY", [Sym("xe")]) == NameError("exception_messages")
    ensures ExchangeOutcome(reg, network, amount, "USD", "JPY", [Sym("xe")])
         == AllFailed(["#<Faraday::ConnectionFailed: xe.com has timed out.>"])
  {
    var os := Outcomes([XeClass], network, "USD", "JPY");
    ExhaustionCollectsEveryMessage(os, amount);
  }

  /** The failover scenario of the library's tests: the first provider (a test double
      under the String name 'slow_xe') raises Faraday::Error, so Open Exchange Rates is
      called next and its rate, scaled from the decoded body, converts the amount. */
  lemma TimeoutFailsOverToOpenExchangeRates(reg: Registry, network: Network, table: CurrencyTable,
                                            slow: ProviderClass, rates: map<string, real>)
    requires slow.DefinesRate()
    requires Str("slow_xe") in reg.providers && reg.providers[Str("slow_xe")] == slow
    requires OpenExchangeRates.RegisteredName in reg.providers
    requires reg.providers[OpenExchangeRates.RegisteredName] == OpenExchangeRatesClass
    requires network(slow, "JPY", "KRW") == Transient("#<Faraday::Error: slow...>")
    requires network(OpenExchangeRatesClass, "JPY", "KRW")
          == OpenExchangeRates.Respond(table, OpenExchangeRates.Body(rates), "JPY", "KRW")
    requires table("JPY") == 1 && "KRW" in rates
    ensures ExchangeOutcome(reg, network, 100.0, "JPY", "KRW", [Str("slow_xe"), OpenExchangeRates.RegisteredName])
         == Converted(rates["KRW"] * 100.0)
    ensures Called(reg, network, "JPY", "KRW", [Str("slow_xe"), OpenExchangeRates.RegisteredName])
         == [slow, OpenExchangeRatesClass]
  {
    var providers := [Str("slow_xe"), OpenExchangeRates.RegisteredName];
    var ks := ResolveAll(reg, providers).klasses;
    assert ks == [slow, OpenExchangeRatesClass];
    var os := Outcomes(ks, network, "JPY", "KRW");
    OpenExchangeRates.CurrentRateScaling(table, rates, "JPY", "KRW");
    FirstRateWins(os, 100.0, 1);
  }

  /** The load-failure scenario of the library's tests: an unregistered first name stops
      the call even though a registered provider follows it. */
  lemma UnregisteredFirstNameStopsCall(reg: Registry, network: Network)
    requires Str("NOT REGISTERED") !in reg.providers
    ensures ExchangeOutcome(reg, network, 100.0, "JPY", "KRW", [Str("NOT REGISTERED"), OpenExchangeRates.RegisteredName])
         == LoadFailed(Str("NOT REGISTERED"))
    ensures Called(reg, network, "JPY", "KRW", [Str("NOT REGISTERED"), OpenExchangeRates.RegisteredName]) == []
  {
  }

  /** Loading the library requires the provider files in order, and each registers
      itself; afterwards `all` holds both :open_exchange_rates and :xe. */
  method LoadProviders(reg: Registry)
    modifies reg
    ensures reg.providers == old(reg.providers)[OpenExchangeRates.RegisteredName := OpenExchangeRatesClass][Sym("xe") := XeClass]
    ensures Sym("xe") in reg.All() && Sym("open_exchange_rates") in reg.All()
  {
    OpenExchangeRates.Register(reg);
    reg.RegisterProvider(Sym("xe"), XeClass);
  }
}

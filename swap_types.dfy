/**
 * The values the swap derivation works on: currencies, amounts in smallest
 * units, routes and trades as the quote hooks deliver them, the per-exchange
 * minimum trade estimates, and `tryParseAmount`.
 */
module SwapTypes {
  import opened Wrappers
  import opened Units

  /** Ether on a chain (18 decimals, symbol "ETH"), or an ERC-20 token. */
  datatype Currency =
    | Native(chainId: nat)
    | Token(chainId: nat, address: string, decimals: nat, symbol: Option<string>)
  {
    function Decimals(): nat {
      if Native? then 18 else decimals
    }

    function Symbol(): Option<string> {
      if Native? then Some("ETH") else symbol
    }
  }

  /** How JavaScript prints an optional symbol inside a message. */
  function SymbolText(symbol: Option<string>): string {
    if symbol.Some? then symbol.value else "undefined"
  }

  /** A CurrencyAmount: a currency and a non-negative raw (smallest-unit) value. */
  datatype Amount = Amount(currency: Currency, raw: nat)

  /** The SDK's `a.lessThan(b)` and `a.greaterThan(b)` compare raw values. */
  predicate LessThan(a: Amount, b: Amount) { a.raw < b.raw }

  predicate GreaterThan(a: Amount, b: Amount) { a.raw > b.raw }

  datatype Exchange = Uni | Sushi | UndefinedExchange

  datatype TradeType = ExactInput | ExactOutput

  datatype Field = Input | Output

  /** A route: the token addresses along the path and each pair's liquidity-token address. */
  datatype Route = Route(path: seq<string>, pairLiquidityTokens: seq<string>)

  /** A quote from one exchange; `minerBribe` is the ETH offered for inclusion. */
  datatype Trade = Trade(
    exchange: Exchange,
    tradeType: TradeType,
    route: Route,
    inputAmount: Amount,
    outputAmount: Amount,
    minerBribe: Amount)

  /** One exchange's minimum tradable amounts, per trade type (either may be missing). */
  datatype MinTradePair = MinTradePair(exactInput: Option<Amount>, exactOutput: Option<Amount>) {
    function ForType(t: TradeType): Option<Amount> {
      if t == ExactInput then exactInput else exactOutput
    }
  }

  /** MinTradeEstimates; an exchange without a key has a null entry. */
  type MinTradeEstimates = map<Exchange, MinTradePair>

  function EntryFor(m: MinTradeEstimates, ex: Exchange): Option<MinTradePair> {
    if ex in m then Some(m[ex]) else None
  }

  /** JavaScript truthiness of an optional string: absent and "" are falsy. */
  predicate Truthy(s: Option<string>) { s.Some? && s.value != "" }

  /**
   * tryParseAmount: no amount for a missing or empty value or a missing
   * currency, for a value parseUnits refuses, and for a value that parses to
   * 0; otherwise the amount whose raw value parseUnits computes with the
   * currency's decimals.
   */
  function TryParseAmount(value: Option<string>, currency: Option<Currency>): (r: Option<Amount>)
    // These ensures only unfold the body case by case; the properties are proved as lemmas.
    ensures r.Some? <==>
              Truthy(value) && currency.Some? &&
              var p := ParseUnits(value.value, currency.value.Decimals()); p.Some? && p.value > 0
    ensures r.Some? ==> r.value.currency == currency.value && r.value.raw > 0 &&
                        ParseUnits(value.value, currency.value.Decimals()) == Some(r.value.raw as int)
  {
    if !Truthy(value) || currency.None? then None
    else
      match ParseUnits(value.value, currency.value.Decimals())
      case None => None
      case Some(v) => if v == 0 then None else if v < 0 then None else Some(Amount(currency.value, v))
  }

  /** "w.f" for a currency, when f carries no more significant digits than its decimals. */
  lemma TryParseAmountDecimal(w: string, f: string, c: Currency)
    requires AllDigits(w) && AllDigits(f) && |w| + |f| > 0
    requires c.Decimals() <= MAX_DECIMALS && |TrimTrailingZeros(f)| <= c.Decimals()
    ensures var r := TryParseAmount(Some(w + "." + f), Some(c));
            (r.None? <==> DigitsValue(w) == 0 && DigitsValue(f) == 0) &&
            (r.Some? ==> r.value.currency == c && Denotes(r.value.raw, w, f, c.Decimals()))
  {
    var s := w + "." + f;
    var d := c.Decimals();
    assert ParseUnits(s, d).Some? && Denotes(ParseUnits(s, d).value, w, f, d) by {
      ParseUnitsDecimal(w, f, d);
    }
    var v := ParseUnits(s, d).value;
    assert v >= 0 && (v == 0 <==> DigitsValue(w) == 0 && DigitsValue(f) == 0) by {
      DenotesZero(v, w, f, d);
    }
    TryParseAmountOfValue(s, c, v);
  }

  /** A decimal w.f denotes a non-negative value, zero exactly when its digits are. */
  lemma DenotesZero(v: int, w: string, f: string, d: nat)
    requires AllDigits(w) && AllDigits(f) && Denotes(v, w, f, d)
    ensures v >= 0 && (v == 0 <==> DigitsValue(w) == 0 && DigitsValue(f) == 0)
  {
    ZeroIff(v, DigitsValue(w), DigitsValue(f), Pow10(|f|), Pow10(d));
  }

  lemma ZeroIff(v: int, W: nat, F: nat, q: nat, p: nat)
    requires q >= 1 && p >= 1 && v * q == (W * q + F) * p
    ensures v >= 0
    ensures v == 0 <==> W == 0 && F == 0
  {
    assert (W * q + F) * p >= 0;
    if W > 0 || F > 0 { assert W * q + F >= 1; assert (W * q + F) * p >= 1; }
  }

  lemma TryParseAmountOfValue(s: string, c: Currency, v: int)
    requires s != "" && ParseUnits(s, c.Decimals()) == Some(v) && v >= 0
    ensures TryParseAmount(Some(s), Some(c)) == if v == 0 then None else Some(Amount(c, v))
  {
  }

  /** More fractional digits than the currency's decimals yields no amount. */
  lemma TryParseAmountOverPrecise(w: string, f: string, c: Currency)
    requires AllDigits(w) && AllDigits(f) && |TrimTrailingZeros(f)| > c.Decimals()
    ensures TryParseAmount(Some(w + "." + f), Some(c)).None?
  {
    ParseUnitsOverPrecise(w, f, c.Decimals());
  }

  /** Round trip: a positive raw value written out with the currency's decimals parses back to itself. */
  lemma TryParseAmountRoundTrip(n: nat, c: Currency)
    requires n > 0 && c.Decimals() <= MAX_DECIMALS
    ensures TryParseAmount(Some(FormatUnits(n, c.Decimals())), Some(c)) == Some(Amount(c, n))
  {
    FormatParseRoundTrip(n, c.Decimals());
    var s := FormatUnits(n, c.Decimals());
    assert s != "" by {
      var t := LeftPad(NatToDigits(n), c.Decimals() + 1);
      assert |s| == |t| + 1;
    }
  }
}

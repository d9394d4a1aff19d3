/**
 * The swap state a URL's query string asks for: the currency, amount,
 * field and recipient parsers and `queryParametersToSwapState`, plus the
 * currency id a selected currency is stored under.
 */
module UrlState {
  import opened Wrappers
  import opened SwapTypes

  /** A query-string value: missing, a string, or anything else `qs` produces (an array, a nested object). */
  datatype Param = Absent | Str(s: string) | NonString

  /** The query parameters the swap page reads. */
  datatype ParsedQs = ParsedQs(
    inputCurrency: Param,
    outputCurrency: Param,
    exactAmount: Param,
    exactField: Param,
    recipient: Param)

  datatype SwapState = SwapState(
    inputCurrencyId: string,
    outputCurrencyId: string,
    typedValue: string,
    independentField: Field,
    recipient: Option<string>)

  /** The validators whose code is not part of this model. */
  datatype Validators = Validators(
    isAddress: string -> Option<string>,   // checksummed address, or false
    parsesAsFloat: string -> bool,         // !isNaN(parseFloat(s))
    isEnsName: string -> bool)             // ENS_NAME_REGEX.test(s)

  // ----- ASCII case mapping -----

  function UpperChar(c: char): char { if 'a' <= c <= 'z' then (c as int - 32) as char else c }

  function LowerChar(c: char): char { if 'A' <= c <= 'Z' then (c as int + 32) as char else c }

  function ToUpper(s: string): (r: string)
    ensures |r| == |s| && forall i :: 0 <= i < |s| ==> r[i] == UpperChar(s[i])
  {
    seq(|s|, i requires 0 <= i < |s| => UpperChar(s[i]))
  }

  function ToLower(s: string): (r: string)
    ensures |r| == |s| && forall i :: 0 <= i < |s| ==> r[i] == LowerChar(s[i])
  {
    seq(|s|, i requires 0 <= i < |s| => LowerChar(s[i]))
  }

  // ----- the parameter parsers -----

  /**
   * parseCurrencyFromURLParameter: a string that is an address gives its
   * checksummed form; everything else, "eth" in any case included, gives "ETH".
   */
  function ParseCurrencyFromURLParameter(p: Param, v: Validators): (id: string)
    ensures id != ""
    ensures p.Str? && Truthy(v.isAddress(p.s)) ==> id == v.isAddress(p.s).value
    ensures !(p.Str? && Truthy(v.isAddress(p.s))) ==> id == "ETH"
  {
    if p.Str? then
      var valid := v.isAddress(p.s);
      if Truthy(valid) then valid.value
      else if ToUpper(p.s) == "ETH" then "ETH"
      else "ETH"
    else "ETH"
  }

  /** parseTokenAmountURLParameter: a string that parseFloat reads as a number, else "". */
  function ParseTokenAmountURLParameter(p: Param, v: Validators): (amount: string)
    // These ensures only unfold the body; the parseFloat test is an oracle, so nothing more is proved.
    ensures amount != "" ==> p.Str? && amount == p.s && v.parsesAsFloat(p.s)
    ensures p.Str? && v.parsesAsFloat(p.s) ==> amount == p.s
  {
    if p.Str? && v.parsesAsFloat(p.s) then p.s else ""
  }

  /** parseIndependentFieldURLParameter: OUTPUT only for a six-letter string; INPUT for anything that is not a string. */
  function ParseIndependentFieldURLParameter(p: Param): (f: Field)
    ensures f == Output ==> p.Str? && |p.s| == 6
    ensures p == Str("output") || p == Str("OUTPUT") || p == Str("Output") ==> f == Output
  {
    if p.Str? && ToLower(p.s) == "output" then Output else Input
  }

  /** The field is OUTPUT exactly for a string that spells "output" in any mix of cases. */
  lemma IndependentFieldIsOutputIff(p: Param)
    ensures ParseIndependentFieldURLParameter(p) == Output <==>
            p.Str? && |p.s| == 6 && forall i :: 0 <= i < 6 ==> p.s[i] == "output"[i] || p.s[i] == "OUTPUT"[i]
  {
    if p.Str? && |p.s| == 6 {
      var l := ToLower(p.s);
      if forall i :: 0 <= i < 6 ==> p.s[i] == "output"[i] || p.s[i] == "OUTPUT"[i] {
        assert forall i :: 0 <= i < 6 ==> l[i] == "output"[i];
        assert l == "output";
      }
      if l == "output" {
        forall i | 0 <= i < 6 ensures p.s[i] == "output"[i] || p.s[i] == "OUTPUT"[i] {
          assert LowerChar(p.s[i]) == "output"[i];
        }
      }
    }
  }

  predicate IsHexDigit(c: char) { '0' <= c <= '9' || 'a' <= c <= 'f' || 'A' <= c <= 'F' }

  /** ADDRESS_REGEX: "0x" followed by exactly 40 hex digits. */
  predicate MatchesAddressRegex(s: string) {
    |s| == 42 && s[0] == '0' && s[1] == 'x' && forall i :: 2 <= i < 42 ==> IsHexDigit(s[i])
  }

  /**
   * validatedRecipient: the checksummed form of an address; else the string
   * itself when it looks like an ENS name or a hex address; else null.
   */
  function ValidatedRecipient(p: Param, v: Validators): (r: Option<string>)
    // These ensures only unfold the body case by case; the properties are proved as lemmas.
    ensures !p.Str? ==> r.None?
    ensures p.Str? && Truthy(v.isAddress(p.s)) ==> r == v.isAddress(p.s)
    ensures p.Str? && !Truthy(v.isAddress(p.s)) ==>
              r == if v.isEnsName(p.s) || MatchesAddressRegex(p.s) then Some(p.s) else None
  {
    if !p.Str? then None
    else
      var address := v.isAddress(p.s);
      if Truthy(address) then address
      else if v.isEnsName(p.s) then Some(p.s)
      else if MatchesAddressRegex(p.s) then Some(p.s)
      else None
  }

  /**
   * A kept recipient is stable: parsed again, as the next URL would carry it,
   * it stays the same, provided checksumming a checksummed address changes
   * nothing.
   */
  lemma ValidatedRecipientIdempotent(p: Param, v: Validators)
    requires p.Str? && Truthy(v.isAddress(p.s)) ==> v.isAddress(v.isAddress(p.s).value) == v.isAddress(p.s)
    ensures var r := ValidatedRecipient(p, v);
            r.Some? ==> ValidatedRecipient(Str(r.value), v) == r
  {
  }

  /** A string of the address shape is always kept, checksummed or as written. */
  lemma AddressShapedRecipientKept(s: string, v: Validators)
    requires MatchesAddressRegex(s)
    ensures ValidatedRecipient(Str(s), v).Some?
    ensures ValidatedRecipient(Str(s), v).value == s || Some(ValidatedRecipient(Str(s), v).value) == v.isAddress(s)
  {
  }

  /**
   * queryParametersToSwapState. When both currency parameters name the same
   * currency, the input side is cleared if the output parameter is a
   * string, else the output side.
   */
  function QueryParametersToSwapState(qs: ParsedQs, v: Validators): (st: SwapState)
    // These ensures only unfold the body case by case; the properties are proved as lemmas.
    ensures st.typedValue == ParseTokenAmountURLParameter(qs.exactAmount, v)
    ensures st.independentField == ParseIndependentFieldURLParameter(qs.exactField)
    ensures st.recipient == ValidatedRecipient(qs.recipient, v)
  {
    var inputCurrency := ParseCurrencyFromURLParameter(qs.inputCurrency, v);
    var outputCurrency := ParseCurrencyFromURLParameter(qs.outputCurrency, v);
    var (i, o) :=
      if inputCurrency == outputCurrency then
        if qs.outputCurrency.Str? then ("", outputCurrency) else (inputCurrency, "")
      else (inputCurrency, outputCurrency);
    SwapState(i, o, ParseTokenAmountURLParameter(qs.exactAmount, v),
              ParseIndependentFieldURLParameter(qs.exactField), ValidatedRecipient(qs.recipient, v))
  }

  /** The two currency ids are never equal, and at most one of them is empty. */
  lemma CurrencyIdsDistinct(qs: ParsedQs, v: Validators)
    ensures var st := QueryParametersToSwapState(qs, v);
            st.inputCurrencyId != st.outputCurrencyId && (st.inputCurrencyId != "" || st.outputCurrencyId != "")
  {
  }

  /**
   * On a clash the side that is cleared is decided by the output parameter
   * alone; without a clash both ids are the parsed ones.
   */
  lemma CurrencyClash(qs: ParsedQs, v: Validators)
    ensures var st := QueryParametersToSwapState(qs, v);
            var i := ParseCurrencyFromURLParameter(qs.inputCurrency, v);
            var o := ParseCurrencyFromURLParameter(qs.outputCurrency, v);
            (i != o ==> st.inputCurrencyId == i && st.outputCurrencyId == o) &&
            (i == o && qs.outputCurrency.Str? ==> st.inputCurrencyId == "" && st.outputCurrencyId == o) &&
            (i == o && !qs.outputCurrency.Str? ==> st.inputCurrencyId == i && st.outputCurrencyId == "")
  {
  }

  /** Two parameters that are not addresses both read as "ETH", so the input side keeps it only without an output string. */
  lemma NoAddressesMeansEthOnOneSide(qs: ParsedQs, v: Validators)
    requires !(qs.inputCurrency.Str? && Truthy(v.isAddress(qs.inputCurrency.s)))
    requires !(qs.outputCurrency.Str? && Truthy(v.isAddress(qs.outputCurrency.s)))
    ensures var st := QueryParametersToSwapState(qs, v);
            if qs.outputCurrency.Str? then st.inputCurrencyId == "" && st.outputCurrencyId == "ETH"
            else st.inputCurrencyId == "ETH" && st.outputCurrencyId == ""
  {
  }

  /**
   * The pure result of useDefaultsFromURLSearch: nothing before the chain is
   * known, then the two currency ids of the parsed state.
   */
  function DefaultsFromURLSearch(chainId: Option<nat>, qs: ParsedQs, v: Validators): (r: Option<(string, string)>)
    ensures r.None? <==> chainId.None? || chainId.value == 0
    ensures r.Some? ==> r.value.0 != r.value.1
    ensures r.Some? ==> var st := QueryParametersToSwapState(qs, v);
                        r.value == (st.inputCurrencyId, st.outputCurrencyId)
  {
    if chainId.None? || chainId.value == 0 then None
    else
      CurrencyIdsDistinct(qs, v);
      var st := QueryParametersToSwapState(qs, v);
      Some((st.inputCurrencyId, st.outputCurrencyId))
  }

  /** The currency id onCurrencySelection stores: a token's address, "ETH" for Ether. */
  function CurrencyId(c: Currency): (id: string)
    // These ensures only unfold the body case by case; the properties are proved as lemmas.
    ensures c.Native? ==> id == "ETH"
    ensures c.Token? ==> id == c.address
  {
    if c.Token? then c.address else "ETH"
  }

  /** A selected currency's id reads back from a URL as the same id: Ether as "ETH", a token by its checksummed address. */
  lemma CurrencyIdRoundTrip(c: Currency, v: Validators)
    requires c.Token? ==> c.address != "" && v.isAddress(c.address) == Some(c.address)
    requires c.Native? ==> !Truthy(v.isAddress("ETH"))
    ensures ParseCurrencyFromURLParameter(Str(CurrencyId(c)), v) == CurrencyId(c)
  {
  }
}

# Swap state hooks of the mistx frontend, modelled in Dafny

This project models the logic of `src/state/swap/hooks.ts`. That file holds the
React hooks that decide what the swap page of the mistx frontend shows. The
model covers these parts:

- **Parsing a typed amount** (`tryParseAmount`). This includes a model of
  ethers' `parseUnits`, which turns a decimal string into an integer count of
  a currency's smallest unit.
- **The recipient denylist and route check** (`BAD_RECIPIENT_ADDRESSES`,
  `involvesAddress`).
- **The swap decision** (`useDerivedSwapInfo`). It picks the better of the
  UNI and SUSHI quotes and computes the minimum-trade flag. It then settles
  on one error message from ten checks that run in a fixed order. Each check
  either keeps an earlier message (`inputError ?? msg`) or replaces it
  (`inputError = msg`).
- **Reading the swap state from a URL query string**: the four parameter
  parsers, `queryParametersToSwapState`, and the value that
  `useDefaultsFromURLSearch` returns.
- **The currency id that `onCurrencySelection` stores.**

Files, one Dafny module each:

- `wrappers.dfy` (`Wrappers`): `Option`.
- `units.dfy` (`Units`): `ParseUnits`, which models ethers' parseFixed, and
  `FormatUnits`, a reference formatter. They are connected by a proved round
  trip.
- `swap_types.dfy` (`SwapTypes`): currencies, amounts, trades and
  minimum-trade estimates, plus `TryParseAmount`.
- `recipients.dfy` (`Recipients`): the denylist and `InvolvesAddress`.
- `error_order.dfy` (`ErrorOrder`): the keep/override rule for error
  messages. `Run` executes the checks in order. `Winner` names the winning
  message declaratively: the last firing override, else the first firing
  keep.
- `derived_swap.dfy` (`DerivedSwap`): the hook. `Derive` states its result
  as a function. `DerivedSwapInfo` computes it step by step, reassigning
  locals the way the hook does, and is proved equal to `Derive`.
- `swap_properties.dfy` (`SwapProperties`): what the hook promises, proved
  about `Derive`, one property per lemma.
- `url_state.dfy` (`UrlState`): the URL parsers.

The hook reads other hooks and calls helpers whose code is not part of this
model. They enter as values:

- **Hook outputs become fields of `SwapInputs`**: the account, chain, swap
  state, currencies, balances, the ENS lookup, the four quotes, slippage,
  EIP-1559 flag, base fee and minimum-trade estimates.
- **Helpers become functions in an `Environment`**:
  - `isTradeBetter`'s price comparison;
  - `computeSlippageAdjustedAmounts`;
  - `isETHTrade` and `isETHOutTrade`;
  - `isAddress`;
  - `WETH`;
  - `MISTX_DEFAULT_GAS_LIMIT`.
- **The URL validators are a `Validators` value**: `isAddress`,
  `parseFloat`'s NaN test and `ENS_NAME_REGEX`.

Two assumptions about helpers whose code is not part of this model:

- `useBaseFeePerGas` yields either undefined or a non-negative integer, so the base fee is an `Option<nat>`. Its type is not part of this model. The source tests only `=== undefined` (line 228). `BigNumber.from(...).mul(baseFeePerGas)` (lines 241-242) would throw on null, on a fraction or on an unsafe number, and those cases are not modelled.
- A trade always carries `minerBribe`. `src/components/TradeDetails/index.tsx:41` reads it unguarded. So "miner bribe is undefined" (line 340) is modelled as "there is no trade".
- `isTradeBetter`'s rule for missing quotes is fixed in `DerivedSwap.IsTradeBetter`. A quote beats a missing one, and two missing quotes give a falsy answer. Only the comparison of two present quotes is an oracle. The "a lone quote is taken" clause of `DerivedSwap.PickQuote` rests on this rule.

JavaScript truthiness is modelled explicitly:

- the empty string is falsy;
- a chain id of 0 is falsy;
- a base fee per gas of 0 is falsy;
- a slippage of 0 is falsy.

## Model

| member | source | states |
|---|---|---|
| Units.ParseUnitsDecimal | src/state/swap/hooks.ts:91 | A numeral `w.f` whose fraction has at most `decimals` significant digits parses. The result divided by 10^decimals is exactly the decimal number w.f. |
| Units.ParseUnitsWhole | src/state/swap/hooks.ts:91 | A numeral without a point parses to its value times 10^decimals. |
| Units.ParseUnitsOverPrecise | src/state/swap/hooks.ts:90-96 | More significant fractional digits than the currency's decimals is refused. This is the failure the hook's catch comment expects. |
| Units.ParseUnitsNotNumeral | src/state/swap/hooks.ts:90-96 | After at most one leading '-', a value with any character other than digits and '.' is refused. This includes a second sign, as in "--1" or "-1a". |
| Units.ParseUnitsNegative | src/state/swap/hooks.ts:91 | A leading '-' negates the value of what follows. |
| Units.FormatParseRoundTrip | src/state/swap/hooks.ts:334 | Formatting an integer at `decimals` decimals and parsing it back gives the same integer. |
| SwapTypes.TryParseAmountDecimal | src/state/swap/hooks.ts:86-101 | For `w.f` within the currency's precision: no amount exactly when every digit is 0; otherwise an amount in that currency whose raw value denotes w.f. |
| SwapTypes.TryParseAmountOverPrecise | src/state/swap/hooks.ts:89-97 | Too many decimal places gives no amount. |
| SwapTypes.TryParseAmountRoundTrip | src/state/swap/hooks.ts:86-101 | A positive raw value, written with the currency's decimals, parses back to the same amount. |
| ErrorOrder.RunAppend | src/state/swap/hooks.ts:246-350 | Running two blocks of checks equals running the second block from the error the first left. |
| ErrorOrder.RunFromKeeps | src/state/swap/hooks.ts:252-272 | Checks written with `??` never replace an error that is already set. |
| ErrorOrder.RunFromStaysSet | src/state/swap/hooks.ts:246-350 | No check clears an error once it is set. |
| ErrorOrder.RunIsWinner | src/state/swap/hooks.ts:246-350 | Running the checks in order yields the last firing override, else the first firing keep. |
| ErrorOrder.WinnerFromFiringCheck | src/state/swap/hooks.ts:246-350 | There is an error exactly when some check fires. The error is the message of a firing check. |
| DerivedSwap.PickQuote | src/state/swap/hooks.ts:199-213 | No trade exactly when both quotes are missing. A lone quote is taken. Of two quotes, UNI is taken exactly when isTradeBetter(SUSHI, UNI) holds. |
| DerivedSwap.CompareQuotes | src/state/swap/hooks.ts:199-213 | The comparison as the hook writes it picks the quote PickQuote specifies. |
| DerivedSwap.RequiredAmountIn | src/state/swap/hooks.ts:284-292 | An ETH input is raised by the base fee and re-denominated in Ether. Any other input is unchanged. The requirement is never below the input and keeps its symbol. |
| DerivedSwap.RequiredEth | src/state/swap/hooks.ts:345-347 | The ETH needed for fees is the bribe or the wallet's base fee, whichever is larger. On a tie it is the base fee. |
| DerivedSwap.CheckEarly | src/state/swap/hooks.ts:246-261 | The wallet, amount, currency and base-fee checks give exactly the run of the first four checks. |
| DerivedSwap.CheckRecipient | src/state/swap/hooks.ts:263-274 | The recipient checks continue the run from the earlier error. |
| DerivedSwap.CheckInputBalance | src/state/swap/hooks.ts:278-295 | The balance check applies the balance-override check of the model to the error so far. |
| DerivedSwap.CheckMinAmount | src/state/swap/hooks.ts:298-311 | Computes the minimum-trade flag that MinAmountError defines. |
| DerivedSwap.ExactRoundTrip | src/state/swap/hooks.ts:334-338 | Formatting an 18-decimal amount and parsing it with 18 decimals gives the raw value back. `FormatUnits` stands in for toExact. It pads the fraction to 18 digits where toExact does not, but the value is the same once ParseUnits trims the zeros. |
| DerivedSwap.CheckFees | src/state/swap/hooks.ts:319-351 | The fee block continues the run through the two fee checks. The bribe is added at lines 328-331. Its `requiredEthBalance` ends as the bribe exactly when the block runs, the trade is not ETH-out and there is a trade; otherwise it stays undefined. |
| DerivedSwap.DeriveOfRun | src/state/swap/hooks.ts:358-366 | With a base fee, the returned record carries the run of the ten checks as its error. |
| DerivedSwap.DeriveFromParsed | src/state/swap/hooks.ts:155-366 | Everything after parsing equals the declarative result for that parsed amount. |
| DerivedSwap.DerivedSwapInfo | src/state/swap/hooks.ts:122-367 | The hook's result equals `Derive`. The `requiredEthBalance` local ends as stated for CheckFees. |
| SwapProperties.ErrorByBlocks | src/state/swap/hooks.ts:246-350 | The error is the early block's run, continued through the recipient block, then through the late block. |
| SwapProperties.BaseFeeUndefinedGivesEmptyResult | src/state/swap/hooks.ts:228-237 | Without a base fee, only currencies and balances are returned. There is no amount, no trade, no estimates, no error and no flag. |
| SwapProperties.TradeSelection | src/state/swap/hooks.ts:155-213 | The returned trade follows the PickQuote rules for the active direction. |
| SwapProperties.OtherDirectionIgnored | src/state/swap/hooks.ts:197-213 | The inactive direction's quotes never change the trade. |
| SwapProperties.EarlierErrorSurvivesRecipientChecks | src/state/swap/hooks.ts:246-274 | The wallet, amount, currency or base-fee error is kept through the recipient checks. It is the result when no later check fires. |
| SwapProperties.RecipientError | src/state/swap/hooks.ts:263-274 | With everything else in order, the error is "Enter a recipient" for a missing or non-address recipient, else "Invalid recipient" for a refused one, else none. |
| SwapProperties.RefusedRecipients | src/state/swap/hooks.ts:103-119 | A recipient is refused exactly when it is on the three-address denylist, or is a path token or a pair's liquidity token of the UNI exact-in or the UNI exact-out quote (lines 268-271). |
| SwapProperties.RouteAddressRefused | src/state/swap/hooks.ts:263-274 | With everything else in order, a recipient found at any index of either UNI quote's path or liquidity tokens gives "Invalid recipient". |
| SwapProperties.InsufficientBalance | src/state/swap/hooks.ts:284-295 | A balance below the slippage-adjusted input replaces any earlier error with "Insufficient SYMBOL balance". For ETH the gas limit times the base fee is added to the input. |
| SwapProperties.CoveredBalanceRaisesNoError | src/state/swap/hooks.ts:293-295 | A sufficient balance changes nothing. The error is the same as with no balance known. |
| SwapProperties.MinTradeAmountFlag | src/state/swap/hooks.ts:298-311 | For a known entry of the winning exchange, the flag is raised exactly when its threshold exceeds the amount. Otherwise any UNI or SUSHI entry raises it, provided there is an amount. |
| SwapProperties.MinTradeAmountError | src/state/swap/hooks.ts:313-315 | A raised flag makes the error "Min trade amount not met" unless the fee block sets one. |
| SwapProperties.BribeUndefinedError | src/state/swap/hooks.ts:322-341 | When the fee block runs with no trade, the miner-bribe error wins outright. |
| SwapProperties.FeesErrorWithZeroBaseFee | src/state/swap/hooks.ts:345-350 | With a zero base fee, an ETH balance below the bribe is the "(fees)" error. |
| SwapProperties.BribeCheckFiresIff | src/state/swap/hooks.ts:322-341 | The miner-bribe check fires exactly when the fee block runs and there is no trade. |
| SwapProperties.FeeBlockSkippedIsQuiet | src/state/swap/hooks.ts:322 | When the fee block's guard fails, neither fee check fires. |
| SwapProperties.FeesCheckFiresIff | src/state/swap/hooks.ts:344-350 | The "(fees)" check fires exactly when the fee block runs with a trade, the base fee per gas is 0 and a known ETH balance is below the bribe. A covering or unknown balance, or a non-zero base fee, never fires it. |
| SwapProperties.EthBalanceIgnoredWithPositiveBaseFee | src/state/swap/hooks.ts:348 | With a non-zero base fee, the ETH balance never affects the result. |
| SwapProperties.ZeroBaseFeeAlwaysErrs | src/state/swap/hooks.ts:259-261 | A zero base fee always leaves an error. It is "Undefined base fee per " when no later check fires. |
| UrlState.ParseCurrencyFromURLParameter | src/state/swap/hooks.ts:369-377 | The id is never empty. An address string gives its checksummed form; anything else gives "ETH". |
| UrlState.ParseIndependentFieldURLParameter | src/state/swap/hooks.ts:383-385 | OUTPUT needs a six-character string. "output", "OUTPUT" and "Output" all give OUTPUT. Anything that is not a string gives INPUT. |
| UrlState.IndependentFieldIsOutputIff | src/state/swap/hooks.ts:383-385 | The field is OUTPUT exactly when the parameter is a string spelling "output" in any mix of cases. |
| UrlState.ValidatedRecipientIdempotent | src/state/swap/hooks.ts:389-396 | A kept recipient, parsed again, stays the same. This assumes checksumming a checksummed address changes nothing. |
| UrlState.AddressShapedRecipientKept | src/state/swap/hooks.ts:388-396 | A string of the `0x` plus 40 hex digits shape is always kept, checksummed or as written. |
| UrlState.CurrencyIdsDistinct | src/state/swap/hooks.ts:398-422 | Whatever the query holds, the two currency ids of the state are never equal, and at most one is empty. |
| UrlState.CurrencyClash | src/state/swap/hooks.ts:400-407 | Without a clash, both ids are the parsed ones. On a clash, the input side is cleared when the output parameter is a string, else the output side. |
| UrlState.NoAddressesMeansEthOnOneSide | src/state/swap/hooks.ts:398-407 | With no address parameters, exactly one side is "ETH", and which side depends on the output parameter. |
| UrlState.DefaultsFromURLSearch | src/state/swap/hooks.ts:435-449 | One run of the effect body. It sets no ids exactly when the chain id is falsy. Otherwise it sets the input and output ids of `queryParametersToSwapState(parsedQs)`, which differ. |
| UrlState.CurrencyIdRoundTrip | src/state/swap/hooks.ts:52 | A stored currency id, placed in a URL, parses back to the same id. |

## Left out

- React and Redux plumbing is not modelled: `useSwapState`, the action dispatchers of `useSwapActionHandlers` other than the line-52 id, `useEffect`, `useState` and the `replaceSwapState` dispatch. These are framework effects, not logic. `DefaultsFromURLSearch` returns the ids, and `QueryParametersToSwapState` gives the full state that is dispatched.
- UrlState.DefaultsFromURLSearch is one run of the effect body, not the hook's value over time. The value lives in `useState` (lines 431-433), and the effect never clears it, so a chain id that later turns falsy still returns the old ids. The effect re-runs only when `dispatch` or `chainId` changes, not when the query does. The render where the chain id first becomes truthy still returns undefined. None of this retained state is modelled.
- The hooks the swap reads are inputs, not computations. This covers `useActiveWeb3React`, `useCurrency`, `useENS`, balances, the quote hooks, `useMinTradeAmount`, slippage, the EIP-1559 flag and the base fee. Their code is not part of this model.
- `isTradeBetter` comparing two quotes is an oracle. Its throw on quotes for different currency pairs ('Trades are not comparable') is not modelled. Its handling of missing quotes is modelled.
- UrlState.ParseTokenAmountURLParameter passes the parameter through `parseFloat`'s NaN test, which is an oracle here. The model states no property of it beyond that pass-through, and it has no row.
- These helpers are oracle functions in the environment: `computeSlippageAdjustedAmounts`, `isETHTrade`, `isETHOutTrade`, `isAddress`, `parseFloat`'s NaN test and `ENS_NAME_REGEX`. Their code is not part of this model.
- `WETH` and `MISTX_DEFAULT_GAS_LIMIT` are parameters. `src/constants` is not part of this model.
- `console.debug` (line 97) and `console.log` (lines 353-355) are omitted because logging has no effect on the result.
- SwapTypes.TryParseAmount: a negative typed value gives no amount in the model. This is a modelling choice: amounts are naturals. ethers' parseUnits accepts "-1", and `parseTokenAmountURLParameter` lets `exactAmount=-1` through, because parseFloat reads it as a number. The source may therefore return a negative amount where the model returns none. `CurrencyAmount.fromRawAmount` is not part of this model.
- SwapTypes.TryParseAmount: the uint256 bound (`MaxUint256`) on a currency amount is not modelled. Amounts are unbounded naturals.
- Units.ParseUnits models ethers' decimal-string form only. Inputs that are not a string, and the `BigNumber` width, are not modelled.
- DerivedSwap.CheckFees: the `requiredEthForWallet === undefined` branch (lines 342-343) is not modelled. `fromRawAmount` always returns an amount, so the branch cannot be reached.
- DerivedSwap.CheckFees: the `if (eip1559 && baseFeePerGas && requiredEthBalance)` test at line 324 reads `requiredEthBalance` before anything assigns it. The model reproduces this, so the branch never runs. `requiredEthBalance` is a ghost out-parameter because no code reads it.
- DerivedSwap.FeeChecksFor: `JSBI.LT(ethBalance?.quotient, …)` with an undefined ETH balance is modelled as no error.
- DerivedSwap.FeeChecksFor: the "(fees)" error is modelled as written. It fires only when `baseFeePerGas` is falsy (0), so with a real base fee the ETH balance is never checked (see `SwapProperties.EthBalanceIgnoredWithPositiveBaseFee`).
- The amount comparisons `lessThan` and `greaterThan` compare raw integers. Both sides are in the same currency, and the SDK's check that they are is not modelled.
- `toUpperCase` and `toLowerCase` are modelled on ASCII letters only. Unicode case mapping is not modelled. Both comparisons are with ASCII words ("ETH", "output").
- UrlState.CurrencyId: a currency that is neither a token nor native (the `''` case of line 52) does not exist in the model's currency type.
- Precedence between the recipient error and the balance error follows the code. The `??` recipient checks run first, and the balance check's plain assignment then replaces their message. Lines 265 and 272 use `??`, and line 294 assigns plainly, so a balance error replaces a recipient error.

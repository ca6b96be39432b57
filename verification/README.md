# walnut-api dashboard calculators and event stream, in Dafny

walnut-api is the back end of a Bitcoin node dashboard. This project models
three parts of it.

- The dashboard calculators in `src/routes/dashboard/data.ts`:
  - fee rates in BTC/kB become whole satoshis per virtual byte;
  - the block subsidy, the blocks left until the next halving and the
    bitcoin mined so far (the `calculateMinedBitcoin` loop);
  - the network hashrate estimate;
  - the difficulty retarget: the clamped adjustment factor, the blocks to
    the next retarget, its estimated date and the percentage change;
  - the number of blocks the mempool would take to clear (the sampling
    `for` loop and the ceiling);
  - `formatLargeNumber`;
  - the compact uptime text (`1d2h3m4s`);
  - the superscript exponent of `formatScientificNotation`.
- The server-sent-events manager in `src/sse/index.ts`: a class whose
  `clients` map and `clientIdCounter` are updated in place by `init`, the
  `close` handler, `sendUpdate` and `sendUpdateToClient`.
- The helpers in `src/util/index.ts`: the verbose uptime text
  (`1 day, 2 hours, 3 minutes, 4 seconds`) and `celciusToFahrenheit`.

The node's RPC answers are parameters. A blockchain is a non-empty sequence
of blocks, each with a time, a difficulty and a weight. The block count is
the tip's height, and `getblockhash(h)` followed by `getblock` reads entry `h`.
JavaScript numbers are Dafny `real`s, and integers stay unbounded.
`Math.floor` of a quotient is Dafny's `/` by a positive divisor.
`Math.ceil` and `Math.round` are `Arith.Ceil` and `Arith.Round`.

Each calculator's loop is a method proved equal to a recursive
specification function:
- `calculateMinedBitcoin` is `Mining.CalculateMinedBitcoin`;
- the mempool sampling loop is `Mempool.GetMempoolData`;
- the two `secondsToTime`s are `SystemStatus.SecondsToTime` and
  `Util.SecondsToTime`.

Lemmas then relate those functions to independent definitions:
- the era-by-era sum equals the per-block subsidy summed over heights;
- printed texts read back to the values they print;
- the joined verbose text never ends in a separator, so trimming it gives the
  same text as the source's trimmed concatenation.

Two formulas are kept exactly as the code writes them. `calculateMinedBitcoin(h)`
counts the rewards of heights 1 to h-1, so the genesis reward and the tip's reward
are both left out. The percentage change divides by `old * 100`, so it comes to
(factor - 1) / 100.

`Sse.SSEManager` is the class. Each of its methods is proved equal to a
transition function on a `Registry` value. The lemmas about those
transitions cover validity, the effect of a broadcast, and the strictly
increasing client ids.

## Model

| member | source | states |
|---|---|---|
| Arith.Ceil | src/routes/dashboard/data.ts:198 | `Math.ceil`: the least integer not below x |
| Arith.Round | src/routes/dashboard/data.ts:240 | `Math.round`: the integer within half a unit of x, ties going up |
| Chain.BlockCount | src/routes/dashboard/data.ts:205 | `getblockcount` is the tip's height, one less than the number of blocks |
| Chain.BlockAt | src/routes/dashboard/data.ts:206-207 | reading a height gives that block exactly when the height exists |
| Fees.ConvertToSatPerByte | src/routes/dashboard/data.ts:196-199 | the result is the least whole number of sat/B whose 1024 bytes cover the rate times 10^8 satoshis |
| Fees.ConvertMonotone | src/routes/dashboard/data.ts:196-199 | a higher BTC/kB rate never gives fewer sat/B |
| Fees.ConvertExact | src/routes/dashboard/data.ts:196-199 | a rate that is exactly n sat/B converts to n |
| Fees.ConvertSmallRate | src/routes/dashboard/data.ts:196-199 | every positive rate up to 1024 sat/kB shows as 1 sat/B |
| Fees.SatText | src/routes/dashboard/data.ts:189 | the text ends in " sat/vB", and what precedes it reads back as the converted rate |
| Fees.FeeField | src/routes/dashboard/data.ts:189-192 | one field of the fee section; FeeFieldBlank states when it is "--" and what it is otherwise |
| Fees.FeeFieldBlank | src/routes/dashboard/data.ts:189-192 | a field is "--" exactly when the rate is missing or zero (falsy); otherwise it is the sat/vB text |
| Fees.ToFeeData | src/routes/dashboard/data.ts:187-194 | the four fields built from entries 0 to 3; ToFeeDataFields and ToFeeDataIndependent state what each field shows |
| Fees.ToFeeDataFields | src/routes/dashboard/data.ts:187-194 | field i (immediate, hour, day, week) shows entry i of the array, and "--" past its end |
| Fees.ToFeeDataIndependent | src/routes/dashboard/data.ts:187-194 | changing one entry changes that field only |
| Fees.GetFeeData | src/routes/dashboard/data.ts:178-185 | the four fields show the estimates for targets 1, 6, 144 and 1008 blocks, in that order |
| Mining.Subsidy | src/routes/dashboard/data.ts:209-210 | the subsidy at any height is positive |
| Mining.Halvings | src/routes/dashboard/data.ts:209 | the completed 210000-block eras; SubsidyTimesHalvings and BlocksUntilHalving state what it counts |
| Mining.SubsidyTimesHalvings | src/routes/dashboard/data.ts:209-210 | the subsidy times 2^halvings is 50 BTC |
| Mining.SubsidyInEra | src/routes/dashboard/data.ts:209-210 | every height of era k earns 50 / 2^k |
| Mining.SubsidyHalves | src/routes/dashboard/data.ts:209-210 | 210000 blocks later the subsidy is half as large |
| Mining.BlocksUntilHalving | src/routes/dashboard/data.ts:212 | between 1 and 210000 blocks; height plus the count is the next multiple of 210000, where the halving count goes up by one |
| Mining.NoHalvingBefore | src/routes/dashboard/data.ts:209-212 | no halving, and no subsidy change, happens before the counted blocks have passed |
| Mining.Supply | src/routes/dashboard/data.ts:256-270 | the era-by-era sum the loop accumulates; SupplyIsTotalSubsidy equates it with the per-block subsidy sum |
| Mining.MinedBitcoin | src/routes/dashboard/data.ts:251-278 | the supply less the genesis reward; MinedIsTotalSubsidy, MinedInFirstEra, MinedMonotone and MinedBounds state its value |
| Mining.CalculateMinedBitcoin | src/routes/dashboard/data.ts:251-278 | the loop returns the era-by-era supply less the genesis reward |
| Mining.SupplyIsTotalSubsidy | src/routes/dashboard/data.ts:256-270 | whole eras of Min(210000, remaining) blocks, the reward halving each era, add up to the sum of the per-height subsidies they cover |
| Mining.MinedIsTotalSubsidy | src/routes/dashboard/data.ts:251-278 | the result for height h is the sum of the subsidies of heights 1 to h-1. The block at the tip height is not counted |
| Mining.MinedInFirstEra | src/routes/dashboard/data.ts:251-278 | in the first era, height h gives 50 * (h - 1) |
| Mining.MinedMonotone | src/routes/dashboard/data.ts:251-278 | a greater height never gives fewer coins |
| Mining.MinedBounds | src/routes/dashboard/data.ts:251-278 | the coins mined are at least 0 and below 21 million |
| Mining.CoinPercent | src/routes/dashboard/data.ts:236-237 | the percentage times 21 million is 100 times the coins mined, and it lies in [0, 100) |
| Mining.EstimatedHashrate | src/routes/dashboard/data.ts:217-218 | the hashrate times 600 s equals difficulty * 2^32 |
| Mining.ConvertHtoEH | src/routes/dashboard/data.ts:280-284 | EH/s times 10^18 gives the H/s it came from |
| Mining.HalvingEstimate | src/routes/dashboard/data.ts:212-214 | the date, in ms, is the tip time plus 600 s per block left. It lies between 600 s and 210000 blocks' worth ahead |
| Mining.GetMiningData | src/routes/dashboard/data.ts:204-240 | all of these for the tip of the chain: the subsidy and its halving identity, the blocks left, the halving date, coins within 0.5 of the mined total, the percentage of the 21 million cap that is mined (in [0, 100)), and the hashrate identity |
| Difficulty.AdjustmentFactor | src/routes/dashboard/data.ts:344-350 | the factor lies in [1/4, 4]. It is the time ratio when that is inside, and the nearer bound when outside |
| Difficulty.TimeRatio | src/routes/dashboard/data.ts:342-348 | the actual time since the last retarget over the expected two weeks; AdjustmentFactor states the clamp applied to it |
| Difficulty.AdjustmentFactorMonotone | src/routes/dashboard/data.ts:344-350 | a longer actual time never gives a smaller factor |
| Difficulty.AdjustmentFactorSaturates | src/routes/dashboard/data.ts:326-350 | four and a hundred expected periods give 4, a quarter period and no time give 1/4, exactly one period gives 1 |
| Difficulty.LastRetargetHeight | src/routes/dashboard/data.ts:337 | the greatest multiple of 2016 not above the block count |
| Difficulty.BlocksToRetarget | src/routes/dashboard/data.ts:373-374 | between 1 and 2016, and it reaches the next multiple of 2016 after the last retarget |
| Difficulty.BlocksToRetargetIsNext | src/routes/dashboard/data.ts:373-374 | no height strictly in between is a retarget height |
| Difficulty.PercentageChange | src/routes/dashboard/data.ts:355-357 | the percentage formula as written; PercentageChangeOfFactor gives its value for a scaled difficulty |
| Difficulty.PercentageChangeOfFactor | src/routes/dashboard/data.ts:352-357 | the formula as written, (new - old) / (old * 100), comes to (factor - 1) / 100 |
| Difficulty.EstimateFacts | src/routes/dashboard/data.ts:352-357 | for a clamped factor the value lies in [-0.0075, 0.03] |
| Difficulty.RetargetTimestamp | src/routes/dashboard/data.ts:373-376 | the tip time plus 600 s per block to the retarget, at most one expected period ahead |
| Difficulty.EstimatedAdjustment | src/routes/dashboard/data.ts:337-357 | the estimate from the last retarget block and the tip; EstimatedAdjustmentSpec states its value and range |
| Difficulty.EstimatedAdjustmentSpec | src/routes/dashboard/data.ts:337-357 | the estimate from the last retarget block and the tip is (clamped factor - 1) / 100 |
| Difficulty.GetDifficultyData | src/routes/dashboard/data.ts:330-376 | the tip's difficulty, the blocks to retarget, the retarget date in ms, and the estimate from the block at the last retarget height |
| Difficulty.SuperscriptChar | src/routes/dashboard/data.ts:412-437 | the per-character switch; SuperscriptCharSpec states that digits map to superscript digits that map back, and other characters are kept |
| Difficulty.SuperscriptCharSpec | src/routes/dashboard/data.ts:412-437 | a digit maps to a superscript digit that maps back; any other character is kept |
| Difficulty.Superscript | src/routes/dashboard/data.ts:409-438 | the text is mapped character by character and keeps its length |
| Difficulty.PlainSuperscript | src/routes/dashboard/data.ts:409-438 | on decimal digits the mapping is undone by its inverse and yields only superscript digits |
| Difficulty.ExponentText | src/routes/dashboard/data.ts:405-441 | the exponent part starts with "×10" |
| Difficulty.ReadSuperscriptDigits | src/routes/dashboard/data.ts:409-438 | the superscript of a number's decimal text reads back as the number |
| Difficulty.ReadExponentText | src/routes/dashboard/data.ts:405-441 | "×10", the sign and the superscript digits determine the exponent, negative ones included |
| Mempool.SampledWeight | src/routes/dashboard/data.ts:297-305 | the weights of the k blocks below the tip add up to at least k |
| Mempool.SampledWeightIgnoresTip | src/routes/dashboard/data.ts:299-305 | the tip block's own weight is never sampled |
| Mempool.SampledWeightFrame | src/routes/dashboard/data.ts:299-305 | the sum reads only the weights at heights n-k .. n-1: two chains of the same height that agree there give the same sample |
| Mempool.EstimatedBlocks | src/routes/dashboard/data.ts:306-311 | the least number of average-weight blocks whose weight covers 4 weight units per mempool byte |
| Mempool.EstimatedBlocksZero | src/routes/dashboard/data.ts:306-311 | never negative, and zero exactly for an empty mempool |
| Mempool.EstimatedBlocksMonotone | src/routes/dashboard/data.ts:306-311 | a larger mempool never needs fewer blocks |
| Mempool.ToMempool | src/routes/dashboard/data.ts:315-321 | the transaction count, the minimum fee as sat/vB text, and a block count text that reads back as the estimate |
| Mempool.GetMempoolData | src/routes/dashboard/data.ts:289-313 | fails exactly when fewer than 10 blocks lie below the tip; otherwise the view for the estimate over the 10 blocks below the tip |
| Price.FormatLargeNumber | src/routes/dashboard/data.ts:105-123 | below 1000 in magnitude the number is kept. Otherwise it is scaled by the largest of K, M, B and T that it reaches, and value * scale == number. The value stays under 1000 except for T |
| Price.FormatLargeNumberSymmetric | src/routes/dashboard/data.ts:105-123 | a negative number gets the same suffix and the negated value |
| Price.FormatLargeNumberMonotone | src/routes/dashboard/data.ts:105-123 | a larger magnitude never gets a smaller suffix |
| Price.FormatLargeNumberExamples | src/routes/dashboard/data.ts:105-123 | 1500000 is 1.5M, 999 is kept, 1000 is 1K, -2.5e12 is -2.5T |
| SystemStatus.SecondsToTime | src/routes/dashboard/data.ts:146-169 | the method returns the compact text of the normalised duration of floor(seconds) |
| SystemStatus.CompactText | src/routes/dashboard/data.ts:146-169 | the shown units as digits and a letter each; ReadCompactText reads it back, and CompactTextHasNoComma shows it has no comma |
| SystemStatus.ConcatIsJoin | src/routes/dashboard/data.ts:146-169 | the text built with `+=` is the parts joined with the empty separator |
| SystemStatus.CompactFront | src/routes/dashboard/data.ts:162-164 | the day, hour and minute pieces are the nonzero units in order, empty exactly when none is shown |
| SystemStatus.CompactWithSeconds | src/routes/dashboard/data.ts:165-167 | the seconds piece is added when seconds are nonzero or nothing came before |
| SystemStatus.CompactWithoutSeconds | src/routes/dashboard/data.ts:162-168 | with zero seconds after a unit, the text ends at the last unit |
| SystemStatus.CompactTextHasNoComma | src/routes/dashboard/data.ts:162-168 | the compact text holds no comma |
| SystemStatus.NoCommaTrim | src/routes/dashboard/data.ts:168 | so the trailing-comma replacement leaves it unchanged |
| SystemStatus.UnderOneSecond | src/routes/dashboard/data.ts:165-167 | less than one second shows as "0s" |
| SystemStatus.ReadCompactText | src/routes/dashboard/data.ts:146-169 | a normalised duration is read back from its compact text |
| SystemStatus.CompactTextRoundTrip | src/routes/dashboard/data.ts:146-169 | reading the text of any non-negative seconds gives back floor(seconds) |
| Util.Decompose | src/util/index.ts:2-13 | days, hours < 24, minutes < 60, seconds < 60 that add up to the total |
| Util.DecomposeUnique | src/util/index.ts:2-13 | that decomposition is the only normalised one |
| Util.PeelingMatchesDecompose | src/util/index.ts:2-13 | the floor-and-subtract steps give that decomposition, negative totals included |
| Util.PeelUnits | src/util/index.ts:2-13 | the method's units are the decomposition |
| Util.Shown | src/util/index.ts:17-22 | units are shown in order, exactly those with a positive amount, and seconds when nothing else is shown |
| Util.Counted | src/util/index.ts:17-21 | a counted unit word ends in a letter |
| Util.TrimTrailingComma | src/util/index.ts:23 | removes a final comma and the spaces after it; otherwise the text is unchanged |
| Util.TrimCommaSpace | src/util/index.ts:23 | a text followed by ", " is trimmed back to the text |
| Util.SecondsToTime | src/util/index.ts:1-24 | the text is the unit pieces of the decomposition of floor(seconds), joined by ", " |
| Util.FrontPieces | src/util/index.ts:17-19 | the day, hour and minute pieces are those units, each followed by ", " |
| Util.LastPiece | src/util/index.ts:20-22 | adding the seconds piece completes the joined text |
| Util.TrailingPiece | src/util/index.ts:17-23 | with zero seconds the built text is the joined text plus ", ", which the trim removes |
| Util.ZeroDurationText | src/util/index.ts:20-22 | a zero duration reads "0 seconds" |
| Util.UnderOneSecond | src/util/index.ts:1-24 | less than one second reads "0 seconds" |
| Util.VerboseTextEndsWithLetter | src/util/index.ts:17-22 | the text always ends in a letter |
| Util.NoTrailingSeparator | src/util/index.ts:17-23 | the result never ends in a comma or space, and the trim leaves it as is |
| Util.SeparatorCount | src/util/index.ts:17-23 | joining n comma-free parts with ", " puts exactly n - 1 commas in the text |
| Util.CountedHasNoComma | src/util/index.ts:17-21 | a counted unit such as "3 hours" holds no comma |
| Util.VerboseTextCommas | src/util/index.ts:17-23 | the verbose text holds exactly one comma fewer than it shows units |
| Util.VerboseText | src/util/index.ts:1-24 | the shown units, counted and joined by ", "; SecondsToTime, NoTrailingSeparator and VerboseTextCommas state what it is |
| Util.Piece | src/util/index.ts:17-19 | the text one `if` appends; FrontPieces and PieceStep state that the pieces add up to the joined text |
| Util.CelsiusToFahrenheit | src/util/index.ts:26-28 | converting back with (f - 32) * 5/9 gives the Celsius value |
| Util.FahrenheitFixedPoints | src/util/index.ts:26-28 | 0 °C is 32 °F, 100 °C is 212 °F, and -40 is the same on both scales |
| Util.FahrenheitStrictlyIncreasing | src/util/index.ts:26-28 | a higher Celsius value gives a higher Fahrenheit value |
| Text.ParseIntToString | src/routes/dashboard/data.ts:319 | an integer's decimal text reads back as the integer |
| Text.IntToString | src/routes/dashboard/data.ts:319 | `toString` of an integer: a minus sign for a negative number, then the digits of its magnitude |
| Text.ParseNatToString | src/sse/index.ts:45 | a natural number's decimal digits read back as the number |
| Text.NatToString | src/routes/dashboard/data.ts:409-410 | `toString` of a natural number: a non-empty digit string with no leading zero except for 0 itself |
| Sse.Frame | src/sse/index.ts:35 | an event frame is "data: ", the payload and a blank line |
| Sse.Empty | src/sse/index.ts:4-5 | a new manager has no clients, counter 0, and is valid |
| Sse.Register | src/sse/index.ts:17-20 | the handshake is written, and the stream gets the current counter as its id. The counter goes up by one |
| Sse.Close | src/sse/index.ts:22-24 | only the closed id is removed; other clients, the counter and the logs stay |
| Sse.BroadcastEffect | src/sse/index.ts:30-41 | clients stay exactly when their write succeeds, each staying client gets exactly one frame, and nothing else changes |
| Sse.BroadcastKeepsHealthyClients | src/sse/index.ts:30-41 | with no failing stream, every client stays |
| Sse.BroadcastNoClients | src/sse/index.ts:30-41 | with no client registered, a broadcast writes nothing and leaves the registry as it was |
| Sse.Step | src/sse/index.ts:32-40 | one iteration of the loop for one id; StepEffect states what it changes |
| Sse.BroadcastUpTo | src/sse/index.ts:32-40 | the first n iterations of the loop; BroadcastUpToEffect states the clients kept and the frames written so far |
| Sse.Broadcast | src/sse/index.ts:30-41 | the whole loop; BroadcastEffect states its effect |
| Sse.Lookup | src/sse/index.ts:45-46 | `clients[key]` for an own key; LookupSpec states when it finds a client |
| Sse.InheritedKeysAreNoClients | src/sse/index.ts:45-47 | names inherited from `Object.prototype` are never client ids, so a lookup by one is handled as NotAStream, never as a client |
| Sse.LookupSpec | src/sse/index.ts:45 | a string key finds a client exactly when it is the decimal text of a registered id |
| Sse.Unicast | src/sse/index.ts:44-49 | an unknown key changes nothing (NoSuchClient). An inherited `Object.prototype` name throws instead (NotAStream), also changing nothing. A known client whose write succeeds is Delivered exactly one frame; a known client whose write throws gives WriteFailed and changes nothing. Each outcome is stated as an if-and-only-if |
| Sse.RegisterValid | src/sse/index.ts:19-20 | registering keeps ids below the counter and streams distinct |
| Sse.CloseValid | src/sse/index.ts:22-24 | closing keeps the registry valid |
| Sse.UnicastValid | src/sse/index.ts:44-49 | a single update keeps the registry valid |
| Sse.CloseIdempotent | src/sse/index.ts:22-24 | closing the same id twice is closing it once |
| Sse.Apply | src/sse/index.ts:9-49 | any operation keeps validity, and only a connect issues an id, the current counter |
| Sse.Run | src/sse/index.ts:9-49 | every trace of operations keeps the registry valid |
| Sse.IssuedIdsIncrease | src/sse/index.ts:19 | ids issued along a trace increase strictly within the counter range, so no id is reused |
| Sse.SSEManager.constructor | src/sse/index.ts:4-7 | starts as the empty registry |
| Sse.SSEManager.Init | src/sse/index.ts:9-27 | the fields change as Register says, and the new id is returned |
| Sse.SSEManager.OnClose | src/sse/index.ts:22-24 | the fields change as Close says |
| Sse.SSEManager.SendUpdate | src/sse/index.ts:30-41 | the `for`-loop over ids changes the fields as Broadcast says |
| Sse.SSEManager.SendUpdateToClient | src/sse/index.ts:44-49 | the fields and the outcome are those of Unicast |

## Left out

- RPC, `fetch` and `systeminformation` calls are left out. Their answers are parameters: the chain, the mempool info, the fee estimates and the failing streams.
- `getPriceData`, `toPriceData`, `toSummary`, `formatBytesToGB`, the CPU and memory figures of `getSystemStatusData`, the database, crypto, zeromq and the routes are not part of this model. `formatLargeNumber` is the one price helper modelled.
- Locale and float formatting are left out: `toLocaleString`, `toLocaleDateString`, `toFixed`, `toPrecision` and `toExponential`. Dates are kept as milliseconds, and values as reals.
- The coefficient of `formatScientificNotation` is left out; only its exponent text is modelled.
- NaN, Infinity and IEEE rounding are not modelled. Reals are exact.
- Fees.ConvertToSatPerByte: the rate is exact, so ConvertExact maps an exact n sat/vB to n. In doubles, `Math.ceil` turns one ulp of rounding in `rate * 100000000 / 1024` into a whole extra sat/vB: 0.00007168 BTC/kB (exactly 7 sat/vB) gives 7.000000000000001, which shows as 8. The same `Math.ceil` at data.ts:309 (Mempool.EstimatedBlocks) is exposed to this too.
- Difficulty.GetDifficultyData: does not model the `toFixed(8)` rounding of the new difficulty, so the estimate is exact. On a test network such as regtest (difficulty about 4.66e-10) that rounding makes the new difficulty 0, so `getDifficultyData` reports -0.01 for every adjustment factor, outside the range [-0.0075, 0.03] that EstimateFacts proves for the model.
- Mining.GetMiningData: the coins are stated up to `Math.round`; the `toFixed(2)` percentage text is not modelled.
- Fees.FeeFieldBlank: NaN is not a rate here, so only a missing entry and 0 are falsy.
- `JSON.stringify` is left out. Payloads are given as already serialised strings.
- The chain is read as one snapshot. In the source each calculator makes its own RPC calls, and the mempool loop re-reads `getblockcount` on each of its ten iterations. A block that arrives between those calls shifts the heights sampled, which the model does not show; SampledWeightIgnoresTip holds for a fixed chain only.
- `setKeepAlive` and `writeHead` have no state the manager reads, so they are left out.
- Sse.SSEManager.Init: assumes the handshake write to a fresh stream succeeds. A throwing handshake would leave the manager unchanged; that path is not modelled.
- `celciusToFahrenheit` in `src/routes/dashboard/data.ts:171-173` duplicates the one in `src/util/index.ts`, so it is modelled once.

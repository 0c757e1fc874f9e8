# Abe block-chain explorer: a Dafny model of its computational core

Abe (`Abe/abe.py`) is a Python 2 WSGI explorer for Bitcoin-family block
chains. Most of that file assembles SQL and HTML. Embedded in it are a
number of self-contained algorithms, and those are what this project models
and proves properties about:

- **Compact block permalinks.** `block_shortlink` and `shortlink_block`
  (module `Shortlink`, over `Hex`) drop the leading zero digits of a block
  hash into a count byte and Base58-encode the next twelve digits. Decoding
  gives back a prefix of the hash.
- **Address-prefix search.** `search_address_prefix`, with `incr_str` and
  `process`, and the bounds of `search_hash_prefix` and `is_hash_prefix`
  (module `PrefixSearch`). The search is a narrowing loop of approximate
  range scans whose hits are verified exactly.
- **Network hash-rate estimator.** `q_nethash` and `q_hashrate`, with
  `path_info_int` and `path_info_uint` (module `RateEstimator`): argument
  normalisation, the every-INTERVAL-th-block sampling, and the row loop.
- **Coin-age columns** of the chains table, the block list and the block
  page (module `CoinAge`).
- **Rendering:** `format_satoshis`, the digit grouping of
  `format_difficulty`, and `flatten` (module `Formatting`, over `Decimal`).
- **The block page's transaction table:** grouping of output and input rows
  by transaction in first-seen order, block totals, the fee column with its
  proof-of-stake rule, and `sum_values` (module `BlockTxs`).
- **The address page:** `adj_balance`, the per-chain balance, received and
  sent totals, and the running-balance history pass (module
  `AddressHistory`).
- **The unspent-outputs service** `do_unspent`: the `|`-separated address
  list and its count bound, address decoding, the spent set, and the
  unspent filter (module `Unspent`).
- **The `shortlink-type` setting** normalised in `Abe.__init__`, and the
  short address link it selects (module `Config`).

`Prelude` holds shared vocabulary. It has Python 2 floor division,
clamping slices, string order and first-seen listing. `Externals` holds
the libraries the explorer calls but does not define: Base58, the address
codec, and the target, difficulty and work conversions. They appear as
function-valued parameters. The only law assumed of them is the Base58
round trip (`DecodesWhatItEncodes`), and it appears as a `requires` where
it is needed. Database queries are modelled by their answers, given as
input sequences. The server clock is a parameter (`now`).

Python semantics are written out where they matter:
- integer `/` floors (`Prelude.FloorDiv`) and `int(x)` truncates toward zero (`CoinAge.TruncDiv`);
- slices clamp (`Prelude.Slice`);
- strings compare lexicographically by code (`Prelude.StrLe`);
- `s.split('|')` always gives at least one piece;
- a local variable read before it is assigned is an error outcome, not a default value.

Floating-point quantities are exact `real`s.

## Model

| member | source | states |
|---|---|---|
| Shortlink.HexB58 | Abe/abe.py:2244-2245 | fails exactly when the text is not even-length hexadecimal; otherwise the Base58 encoding of the bytes it spells |
| Shortlink.B58Hex | Abe/abe.py:2238-2242 | fails (page not found) exactly when Base58 decoding fails; otherwise hexadecimal text that decodes back to the decoded bytes |
| Prelude.LeadingRun | Abe/abe.py:2248-2253 | counts exactly the leading run of a character: every character before it is that character, the one after is not; it gives the `'0'` count of `block_shortlink` and the `'1'` count of `search_address_prefix` (1267-1271) |
| Shortlink.ZeroDigitsKept | Abe/abe.py:2248-2254 | the elided count is even and is the leading-zero count rounded down (`zeroes &= ~1`) |
| Shortlink.ShortlinkBlock | Abe/abe.py:2257-2262 | fails exactly when Base58 decoding fails or yields no byte; otherwise even-length lower-case hexadecimal |
| Shortlink.ShortlinkBytes | Abe/abe.py:2247-2255 | for a 64-digit hash the permalink is the Base58 of one byte holding half the elided count, followed by the bytes of the next (up to) twelve digits |
| Shortlink.ExpandEncoded | Abe/abe.py:2257-2262 | expanding the link of bytes `d` gives `'00' * d[0]` followed by the hexadecimal of `d[1:]` |
| Shortlink.ShortlinkRoundTrip | Abe/abe.py:2247-2262 | for a 64-digit lower-case hash with elided count `z`, given the Base58 round trip, `shortlink_block(block_shortlink(h)) == h[:z+12]` |
| Shortlink.ShortlinkIsPrefix | Abe/abe.py:2247-2262 | the expansion is a prefix of the hash, at least `min(leading zeros + 11, 64)` long, so an odd zero count loses one digit |
| Hex.HexEncode | Abe/abe.py:2240 | `encode('hex_codec')` writes two lower-case digits per byte |
| Hex.HexDecode | Abe/abe.py:2245 | `decode('hex_codec')` yields half as many bytes as digits |
| Hex.HexDecodeEncode | Abe/abe.py:2238-2245 | decoding undoes encoding, for every byte string |
| Hex.HexEncodeDecode | Abe/abe.py:2238-2245 | encoding undoes decoding on even-length lower-case hexadecimal |
| Hex.Hex02IsByte | Abe/abe.py:2255 | `'%02x' % n` for a byte is exactly its two-digit encoding |
| PrefixSearch.IncrStr | Abe/abe.py:1279-1283 | `incr_str` keeps the length, or adds one byte on overflow |
| PrefixSearch.IncrStrValue | Abe/abe.py:1279-1283 | `incr_str` adds exactly one to the big-endian value |
| PrefixSearch.IncrStrCarry | Abe/abe.py:1280-1282 | the last byte below `0xff` goes up by one, the bytes before it are kept, and the bytes after it become zero |
| PrefixSearch.IncrStrOverflow | Abe/abe.py:1283 | an all-`0xff` string becomes `'\1'` followed by `len(s)` zero bytes |
| PrefixSearch.Padded | Abe/abe.py:1273-1276 | `al`/`ah` start with `ap`, have length `max(35, len(ap))`, and every character after `ap` is the padding character (`'1'` for `al`, `'z'` for `ah`) |
| PrefixSearch.OrderedRange | Abe/abe.py:1310-1314 | the scanned range always has low ≤ high; it is `BETWEEN` exactly when `hl <= hh`, and otherwise the swapped bounds under `NOT BETWEEN` |
| PrefixSearch.ProcessRow | Abe/abe.py:1285-1297 | the unbound-`v` error occurs exactly when the `vl` encoding misses the prefix and `vh == vl`; a kept address starts with `ap` and is the `vl` or `vh` encoding of the hash under a one-byte version (`is_address_version`, 2157-2158) |
| PrefixSearch.ProcessRows | Abe/abe.py:1317-1320 | the whole scan raises exactly when some row's `process` does; otherwise every result is a verified hit, and there are no more results than rows |
| PrefixSearch.Limit | Abe/abe.py:1318-1319 | `LIMIT n` yields a prefix of the rows, at most `n` long |
| PrefixSearch.Pass | Abe/abe.py:1299-1320 | a pass that scans yields at most 100 addresses, each a verified hit |
| PrefixSearch.SearchFrom | Abe/abe.py:1265-1325 | every address a finished search returns starts with `ap` and encodes some hash under a one-byte version |
| PrefixSearch.RunVerified | Abe/abe.py:1298-1323 | the narrowing loop accumulates only verified hits |
| PrefixSearch.SearchAddressPrefix | Abe/abe.py:1265-1325 | the search method computes `SearchFrom`, so its hits are all verified |
| PrefixSearch.NarrowingLoop | Abe/abe.py:1298-1323 | the `while l >= minlen` loop over `al`, `ah`, `ret` computes `Run`: exit below `max(len(ap), 24)`, `break` ends the search, and each scanned pass drops one character from both bounds |
| PrefixSearch.RunStep | Abe/abe.py:1321-1323 | one iteration unfolded: a scanned pass continues with both bounds one character shorter |
| PrefixSearch.RetryDiverges | Abe/abe.py:1308-1309 | once the `continue` branch is taken the loop never finishes, whatever the number of passes |
| PrefixSearch.FuelMonotone | Abe/abe.py:1298-1323 | the pass bound only bounds: a finished run has the same outcome with more passes |
| PrefixSearch.NoRetryFinishes | Abe/abe.py:1298-1323 | when no pass takes `continue`, one pass per length is enough to finish |
| PrefixSearch.PassIgnoresRowsPastLimit | Abe/abe.py:1316-1320 | two indexes that agree on the first 100 rows of every scan give the same pass: matching hashes beyond the `LIMIT 100` are never seen |
| PrefixSearch.RunFindsAtMost | Abe/abe.py:1298-1323 | a finished run over bounds of length `l` returns at most `100 * (l - minlen + 1)` addresses |
| PrefixSearch.SearchFindsAtMost | Abe/abe.py:1298-1323 | a finished search returns at most 100 addresses for each length from `max(35, len(ap))` down to `max(len(ap), 24)`, so it cannot be complete when more addresses match |
| PrefixSearch.Lower | Abe/abe.py:1222 | `q.lower()` maps each character and keeps the length |
| PrefixSearch.HashPrefixBounds | Abe/abe.py:1239-1246 | skipped exactly for pubkeys with `len(q) > 40`; otherwise both bounds start with `q.lower()` and have the table's width (64 or 40 digits) or more |
| PrefixSearch.PaddedBounds | Abe/abe.py:1242-1246 | within the width the bounds are `q.lower()` padded with `'0'` and with `'f'` |
| PrefixSearch.HashPrefixBoundsExact | Abe/abe.py:1239-1251 | a full-width lower-case hash lies in the `BETWEEN` range exactly when it starts with `q.lower()` |
| PrefixSearch.HashPrefixScanIsExact | Abe/abe.py:2264-2265 | for a query `is_hash_prefix` admits, the transaction and block scans cover exactly the hashes with that prefix |
| RateEstimator.PathInfoInt | Abe/abe.py:2188-2195 | a missing segment or a non-integer gives the default; otherwise the integer it spells |
| Decimal.ParseIntOfIntToString | Abe/abe.py:2188-2195 | `int(str(n)) == n` for every integer, the fact the path readers rely on |
| RateEstimator.PathInfoUint | Abe/abe.py:2182-2186 | a non-negative integer segment is returned as read; anything else gives the default |
| RateEstimator.PathInfoIntReadsNumbers | Abe/abe.py:2188-2195 | every integer written in decimal is read back unchanged |
| RateEstimator.NormalizeOutcomes | Abe/abe.py:1773-1799 | the refusal for a negative INTERVAL with non-zero START, the missing-tip and INTERVAL-0 failures, each exactly when it occurs; `stop == 0` means no stop; the plan's INTERVAL is the absolute value; a negative START or STOP is shifted by the tip height; a negative INTERVAL sets START to `count - (count / interval) * interval`; `stop_ix` is present exactly for a non-zero STOP and is `(stop - start) / interval` (floored) on the shifted values |
| RateEstimator.CountBackPlan | Abe/abe.py:1785-1787 | a negative INTERVAL `-k` sets START to `count mod k`, so `0 <= start < k` and `start ≡ count` |
| RateEstimator.NegativeIntervalEndsAtTip | Abe/abe.py:1779-1787 | with a negative INTERVAL the samples are evenly spaced and the last one is the last block |
| RateEstimator.Sampled | Abe/abe.py:1713-1731 | every sampled height lies on the main chain, `0..tip` |
| RateEstimator.AskIsLinear | Abe/abe.py:1723 | integer `m` asks for height `m * interval + start` |
| RateEstimator.SampledMembers | Abe/abe.py:1720-1727 | a height is sampled exactly when some integer up to the tip, within the stop index, asks for it |
| RateEstimator.SampledIncreasing | Abe/abe.py:1728 | with a positive INTERVAL the heights come out strictly increasing |
| RateEstimator.SampledIsProgression | Abe/abe.py:1720-1728 | with a positive INTERVAL and no STOP the heights are the progression `start + n*interval` up to the tip |
| RateEstimator.SampledPastTip | Abe/abe.py:1720-1724 | with a non-negative INTERVAL, nothing is sampled once the asked height passes the tip |
| RateEstimator.SampledAtZeroInterval | Abe/abe.py:1723 | INTERVAL 0 asks for START once per integer |
| RateEstimator.Rows | Abe/abe.py:1713-1731 | one row per sampled height |
| RateEstimator.LineFor | Abe/abe.py:1823-1844 | a line shows the block's own target, difficulty and work (from its `nBits`); the average target is `work_to_target` of the interval work (the difference of the baselines `chain_work - work`) floor-divided by INTERVAL; the seconds per block are the interval seconds over INTERVAL; the rate is `'Infinity'` exactly when the seconds are ≤ 0, and otherwise the interval work per second |
| RateEstimator.NethashLines | Abe/abe.py:1822-1846 | one line per row after the first; a division by zero exactly when there are two rows or more and INTERVAL is 0 |
| RateEstimator.NethashLoop | Abe/abe.py:1822-1848 | the row loop carrying `prev_nTime`/`prev_chain_work` computes `NethashLines` |
| RateEstimator.AccountedWorkTelescopes | Abe/abe.py:1829-1833 | lines that each account for the work of their interval together account for the work between the first and the last row |
| RateEstimator.ReportedWorkTelescopes | Abe/abe.py:1822-1846 | when every interval took time, the reported rates, each times its interval's seconds, sum to the work between the first and the last sample |
| RateEstimator.LastRate | Abe/abe.py:1753-1757 | `ret` is the last line's rate; reading it with no line is an error |
| RateEstimator.HashrateLoop | Abe/abe.py:1733-1757 | the `q_hashrate` loop keeps only the last rate (`LastRate` of the lines) |
| RateEstimator.QNethash | Abe/abe.py:1759-1848 | the `q_nethash` method computes the lines of the normalised plan |
| RateEstimator.QHashrate | Abe/abe.py:1676-1757 | the `q_hashrate` method computes the estimate over N blocks |
| RateEstimator.HashratePageReadsN | Abe/abe.py:1681 | N is read from the path; 1440 when it is missing |
| RateEstimator.HashratePlan | Abe/abe.py:1682-1699 | N > 0 samples every N-th block from N before the tip |
| RateEstimator.HashrateSamples | Abe/abe.py:1682-1731 | for `0 < N <= tip` exactly the blocks `tip - N` and `tip` are sampled |
| RateEstimator.HashrateTooFew | Abe/abe.py:1682-1731 | for N past the tip at most one block is sampled |
| RateEstimator.HashrateRefusesNegative | Abe/abe.py:1682-1689 | a negative N always gives `'ERROR: Negative N!'`, since START is `-N` |
| RateEstimator.HashrateOverN | Abe/abe.py:1676-1757 | for `0 < N <= tip` the answer is the rate between block `tip - N` and the tip |
| RateEstimator.HashrateBeyondChain | Abe/abe.py:1733-1757 | N past the tip leaves `ret` unassigned, an error |
| RateEstimator.HashrateZero | Abe/abe.py:1682-1757 | N = 0 divides by zero on a chain of two or more blocks; on a single block it leaves `ret` unassigned |
| CoinAge.ChainsRow | Abe/abe.py:291-311 | over the fractional clock `now`: the average age is blank exactly when satoshis is 0 or -1, and -1 is reset to 0; otherwise it is `(ss/satoshis + since_block)/86400`; the percentage is blank exactly when `chain_age <= 0` or `total_ss <= 0`; and the division by zero occurs exactly when the guard passes and `total_ss + more == 0` |
| CoinAge.ChainsRowFutureBlockDividesByZero | Abe/abe.py:305-310 | a concrete row whose block is dated after `now` raises `ZeroDivisionError` |
| CoinAge.ChainsRowGuarded | Abe/abe.py:305-310 | agrees with the chains table wherever that succeeds; the percentage is blank exactly when the age or total is not positive or the divisor is zero |
| CoinAge.AvgAgeDays | Abe/abe.py:301-302 | the average age in days, times 86400 and the satoshis, is the chain's coin-age plus the coins' aging since the last block |
| CoinAge.ChainsAvgAgeIncreasing | Abe/abe.py:297-302 | with the satoshis fixed and positive, a larger `ss` shows a strictly larger average age |
| CoinAge.ChainsPercentIsShare | Abe/abe.py:308-310 | the shown percentage times the total coin-age is 100 times the destroyed coin-age; the accrued part cancels |
| CoinAge.ChainsPercentBounded | Abe/abe.py:305-311 | with `0 <= ss <= total_ss` and coins aging forward the row succeeds and the percentage is within 0..100 |
| CoinAge.ChainAvgAge | Abe/abe.py:469-472 | blank exactly when satoshis is 0; otherwise the floored `ss / satoshis` in days |
| CoinAge.ChainAvgAgeFloors | Abe/abe.py:472 | the floored average lies within 1/86400 day below the exact one |
| CoinAge.ChainAvgAgeMonotone | Abe/abe.py:469-472 | the block list's floored average age never decreases as `ss` grows |
| CoinAge.ChainPercent | Abe/abe.py:474-481 | blank exactly when `seconds <= 0`, `'0%'` exactly when the total is zero, and otherwise the destroyed share |
| CoinAge.BlockCoinAge | Abe/abe.py:590-600 | each of the three lines is present exactly under its guard; the average age and the cumulative share are as shown; the destroyed coin-days are `destroyed / 86400` truncated toward zero, so for a non-negative amount the whole days it contains |
| CoinAge.BlockAgreesWithList | Abe/abe.py:590-600 | the block page and the block list show the same destroyed share |
| Formatting.FormatSatoshis | Abe/abe.py:2201-2204 | an absent amount, and only it, renders as `''` |
| Formatting.RStrip | Abe/abe.py:2211-2212 | `rstrip(c)` leaves a prefix that does not end in `c` |
| Formatting.FracTextShape | Abe/abe.py:2209-2212 | a whole amount has no fraction; otherwise the fraction is a dot and 1 to 6 digits with no trailing zero, whose value scaled to six places is `s % COIN` |
| Formatting.ParseFormatUnsigned | Abe/abe.py:2206-2212 | a non-negative amount renders as text that reads back as the amount |
| Formatting.ParseFormatAmount | Abe/abe.py:2201-2212 | every amount, negative ones included (`'-' + format_satoshis(-s)`), reads back from its rendering |
| Formatting.FormatAmountWhole | Abe/abe.py:2205-2212 | a whole non-negative amount is `str(s / COIN)` with no trailing dot; the text starts with `'-'` exactly for a negative amount |
| Formatting.FormatDifficulty | Abe/abe.py:2214-2220 | the `while idiff > 999` loop yields the grouped integer part followed by the fraction |
| Formatting.GroupedDigits | Abe/abe.py:2217-2220 | with the spaces removed the grouped text is `str(idiff)` |
| Formatting.Flatten | Abe/abe.py:2267-2274 | raises exactly when a `None` occurs anywhere in the structure |
| Formatting.FlattenAll | Abe/abe.py:2268-2269 | a list flattens unless one of its items holds a `None` |
| Formatting.FlattenConcat | Abe/abe.py:2268-2269 | flattening a concatenation concatenates the flattenings |
| Formatting.FlattenNested | Abe/abe.py:2267-2269 | a nested list flattens to the same text as its items spliced in |
| BlockTxs.FirstOut | Abe/abe.py:623-633 | a transaction's entry comes from its first output row exactly when it has one |
| BlockTxs.GroupOutputs | Abe/abe.py:610-640 | the output pass lists transactions in first-seen order, gives each the entry its rows determine, and sums `block_out` |
| BlockTxs.GroupInputs | Abe/abe.py:641-671 | the input pass continues the listing; a transaction with inputs only gets the `AssertionFailedTxInputNoOutput` entry; the pass sums `block_in` |
| BlockTxs.ReadOutputsDescribes | Abe/abe.py:614-640 | after the output rows the table lists exactly the transactions seen, each with its totals and legs |
| BlockTxs.ReadInputsDescribes | Abe/abe.py:641-671 | the same after the input rows |
| BlockTxs.GroupTxs | Abe/abe.py:610-671 | both passes together: `tx_ids` is the first-seen order of all rows' transactions, `txs` is keyed by it, and the per-transaction totals add up to the block totals |
| BlockTxs.RowsListed | Abe/abe.py:623-653 | every row's transaction is listed |
| BlockTxs.BlockPartition | Abe/abe.py:610-671 | the per-transaction totals add up to `block_out` and `block_in` |
| BlockTxs.ProofOfStakeIffNonZeroPrefix | Abe/abe.py:687 | for a hexadecimal block hash, `block_hash[:4] > '0000'` holds exactly when the first four digits are not all zero |
| BlockTxs.FeeColumn | Abe/abe.py:677-689 | the fee is inputs less outputs; it is zero for the coinbase and for the second transaction of a proof-of-stake block; `posgen` is the size of the latter's fee |
| BlockTxs.FeesBalance | Abe/abe.py:680-689 | the fees shown sum to the block's inputs less outputs, less the coinbase's and (proof of stake) the coinstake's balance |
| BlockTxs.BlockTxTable | Abe/abe.py:610-689 | the transaction table: the coinbase generation equals the fees shown, plus the block's outputs less inputs, plus the coinstake's balance |
| BlockTxs.SumValues | Abe/abe.py:884-890 | `None` exactly when some value is missing; otherwise the sum |
| AddressHistory.BalanceIsReceivedLessSent | Abe/abe.py:994-998 | a chain's balance is what was received less what was sent, and both are non-negative |
| AddressHistory.CreditKeys | Abe/abe.py:988-994 | adding to a dictionary entry keeps the keys the first-seen branch set up |
| AddressHistory.ListingStep | Abe/abe.py:988-989 | a chain is appended to `chain_ids` exactly when `balance` has no entry for it, so `chain_ids` is the first-seen order of the points' chains |
| AddressHistory.NewChain | Abe/abe.py:988-993 | a chain without an entry has no earlier points, so its new zero entries are its totals |
| AddressHistory.AdjTracks | Abe/abe.py:985-999 | one `adj_balance` step keeps every dictionary and both counters equal to the totals of the points read |
| AddressHistory.PointAdded | Abe/abe.py:994-999 | one more point adds its value to its chain's balance, to received or to sent by sign, and one to its counter |
| AddressHistory.AdjBalance | Abe/abe.py:985-999 | `adj_balance` takes dictionaries and counters tracking the points seen to ones tracking them plus the new point |
| AddressHistory.Summarize | Abe/abe.py:1066-1079 | after the first pass `chain_ids`, `balance`, `received`, `sent` and `count` are the totals of all points |
| AddressHistory.NoChainsIffNoPoints | Abe/abe.py:1081-1083 | "Address not seen on the network" is shown exactly when there are no points |
| AddressHistory.ChainListed | Abe/abe.py:985-989 | every point's chain is listed |
| AddressHistory.ResetBalances | Abe/abe.py:1116-1117 | the listed chains' balances become 0 and the other entries are kept |
| AddressHistory.History | Abe/abe.py:1116-1147 | the history's balance column on row `k` is the net value of that row's chain up to and including row `k`, and the final balances are the chains' totals |
| AddressHistory.LaterChainsAddNothing | Abe/abe.py:1131-1133 | points of other chains after a chain's last point do not change its balance |
| AddressHistory.LastRowShowsBalance | Abe/abe.py:1131-1145 | a chain's last history row shows the balance of the summary |
| AddressHistory.AddressPage | Abe/abe.py:1062-1147 | the address page: the summary totals with `received - sent == balance` per chain, the history column, and the balances after the history equal to those before the reset |
| Unspent.Find | Abe/abe.py:1396 | the first separator position, or the length when there is none |
| Unspent.SplitShape | Abe/abe.py:1396 | `split('|')` gives one piece more than there are separators, and no piece contains one |
| Unspent.JoinSplit | Abe/abe.py:1396 | joining the pieces gives the text back |
| Unspent.SplitJoin | Abe/abe.py:1396 | splitting a join of non-empty, separator-free addresses gives them back |
| Unspent.CountBound | Abe/abe.py:1392-1399 | the count message is returned exactly for a missing segment or one with 200 or more separators |
| Unspent.DecodableKeeps | Abe/abe.py:1413-1420 | the kept addresses are exactly those of the list that decode |
| Unspent.DecodeAddresses | Abe/abe.py:1411-1421 | the decoding loop keeps the decodable addresses in order, each with its own hash |
| Unspent.SpentSet | Abe/abe.py:1458-1471 | the spent set holds exactly the spent `(txout_id, chain_id)` pairs |
| Unspent.UnspentsListed | Abe/abe.py:1501-1506 | an output is listed exactly when some received row with an unspent key lists it |
| Unspent.UnspentsBound | Abe/abe.py:1501-1506 | no more outputs than received rows, and all of them when nothing is spent |
| Unspent.FilterUnspent | Abe/abe.py:1501-1506 | the filter loop computes the unspent listing, in the rows' order |
| Unspent.Message | Abe/abe.py:1508-1509 | the no-free-outputs reply is `'No free outputs to spend ['` … `']'` |
| Unspent.DoUnspent | Abe/abe.py:1391-1509 | the count error, the invalid-address error and the too-many-records error each exactly when they occur; otherwise the unspent outputs of the received rows, the empty case naming the decoded addresses joined by `'|'` |
| Config.Fallback | Abe/abe.py:160-174 | firstbits exactly when the database keeps them, otherwise ten characters |
| Config.ShortlinkSetting | Abe/abe.py:160-174 | fails exactly for a value other than `"firstbits"` that is not an integer ≥ 2; firstbits exactly when they are asked for or defaulted and the database keeps them; any length is at least 2 |
| Config.NumericSetting | Abe/abe.py:165-168 | any integer ≥ 2 written in decimal is accepted as that length |
| Config.ShortNumberRefused | Abe/abe.py:166-168 | an integer below 2 is refused with the two-character-minimum error |
| Config.ReplaceChar | Abe/abe.py:1107 | `replace('l', 'L')` maps each character and keeps the length |
| Config.AddressLink | Abe/abe.py:1102-1111 | a prefix-kind link is the first `n` characters of the address; a firstbits link is the firstbits with `'l'` written `'L'`, or the whole address when the store has none |
| Config.LinkKeepsTwo | Abe/abe.py:1102-1111 | with a normalised setting a prefix-kind link keeps at least two characters of the address |

## Left out

- I/O and plumbing are not modelled: WSGI dispatch, HTTP redirects, static files, downloads, the server loop and signals. Neither are the HTML assembly of every page, `short_link` and the templates.
- SQL and the `DataStore` are not modelled. Query answers are input sequences. `binin`/`binout`/`hashout_hex` conversions are the identity on the values the model uses. The `rows.sort()` of the address page is not modelled: its points are taken as already sorted.
- `util.*`, `base58.*` and `deserialize.decode_script` are not modelled. They are uninterpreted functions, and only the Base58 round trip is assumed, where a lemma needs it.
- Floating-point formatting is not modelled: `'%5g'`, `'%6g'`, `'%.0f'`, `'%.3f'`, the `'.%03d'` fraction of `format_difficulty` and `format_time`. Float quantities are exact reals, so float rounding is not captured.
- `Formatting.FormatSatoshis`: the float quotient `destroyed / 86400.0` that the block page passes to `format_satoshis` is taken truncated by `int()`. The float's own rounding is not modelled.
- `Decimal.ParseInt`: Python's `int()` also skips surrounding white space; the model rejects it.
- `PrefixSearch.SearchAddressPrefix` and `PrefixSearch.SearchFrom` run on a pass bound (`fuel`), because the source loop need not terminate. `Diverged` is the outcome of a run that has not finished within the bound. `RetryDiverges` shows the `continue` branch never finishes.
- `search_address_prefix` is not complete, and nothing states that it is: each pass reads at most 100 rows (`PassIgnoresRowsPastLimit`, `SearchFindsAtMost`), and a `break` ends the search before shorter prefixes are scanned. The model proves soundness only: every address it returns is a verified hit.
- `search_hash_prefix` is modelled through its bounds and the exactness of the range scan. The rendering of its rows, and `search_number`, `search_general` and `handle_search`, are not modelled.
- `RateEstimator`: the `'%d,…'` text of each `q_nethash` line and `NETHASH_HEADER` are not modelled. The chain lookup and the usage text for a missing chain are not modelled either.
- `AddressHistory`: `adj_balance` and the history pass update the `balance`, `received`, `sent`, `count` and `chain_ids` objects in place. The model passes them as values in and out of methods instead, so aliasing of those dictionaries is not captured. Also not modelled: the `too_many` row limit, `chain_lookup_by_id` and `format_amounts`.
- `Unspent.DoUnspent`: only the default implementation (`impl` other than `'1'`) is modelled. The `LIMIT` on the spent-pairs query is not modelled, so truncation of the spent set at the row limit is not captured. Also not modelled: the JSON rendering of the outputs and the chain restriction of the queries.
- `Config.AddressLink`: the store's firstbits lookup (`get_firstbits`) is a parameter. `handle_a`'s resolution of a link back to addresses is not modelled.
- `q_gettop100*`, `q_getbalance` and the other `q_*` queries are not modelled: they are query-driven and use float division.

## Findings

| source | as written | input that shows it | evidently intended | confidence | as-written member | corrected member |
|---|---|---|---|---|---|---|
| Abe/abe.py:305-310 | the chains table guards the destroyed percentage with `total_ss <= 0`, but then divides by `total_ss + more`. `more = since_block * satoshis` is negative when the block's time lies after `now`, and the query adds 28800 s to every block time (line 266), so this holds for any block of the last eight hours | `now = 100.0`, `nTime = 110`, `seconds = 20`, `satoshis = 10`, `ss = 0`, `total_ss = 100`: `more = -100.0`, so the page raises `ZeroDivisionError` | a blank percentage when the divisor is zero | not executed | CoinAge.ChainsRowFutureBlockDividesByZero | CoinAge.ChainsRowGuarded |

# Gamma Exposure (GEX) pipeline: a Dafny model

This project models the core of an options-chain analyser. The analyser reads one snapshot of an options chain, computes each contract's signed gamma exposure (GEX) and sums it per strike and option type. From that profile it derives three market-structure levels and a regime label:

- the **Call Wall**, the call strike with the largest exposure;
- the **Put Wall**, the put strike with the largest exposure in absolute value;
- the **Gamma Flip**, the strike where the net exposure per strike first changes sign, scanning strikes upwards;
- **Positive Gamma** or **Negative Gamma**, from the sign of the total exposure.

The model follows the three stages of `src/process_data.py`. Each stage is a Dafny module.

- `OptionsTable` (`options_table.dfy`) models `parse_options_data`.
  - The raw document is a map from top-level keys to values, and the contracts live under `"data"`.
  - A missing document, a missing `"data"`, an empty or null `"data"`, and a non-empty scalar `"data"` each give their own error.
  - Otherwise the records become a column-major `Table`: one row per record, one column per field name seen, and a missing field reads as null.
  - `ParseOptionsData` then loops over the twelve numeric column names. It overwrites each column that exists with its coerced form.
  - Coercing text is the parameter `parse: string -> Option<real>`. Text it cannot read becomes null, and nothing fails.
- `GammaExposure` (`gamma_exposure.dfy`) models `calculate_gex`.
  - It returns `NoTable` for a missing table, one with no rows, or one with no columns. This is pandas' `empty`.
  - It returns `MissingColumn` when one of `gamma`, `open_interest`, `type`, `strike` or `volume` is not a column, because the source's column lookups raise `KeyError`.
  - Otherwise `Clean` keeps exactly the contracts that have both gamma and open interest, and `Price` gives each kept contract its exposure `open_interest × gamma × 100 × (+1 if type is "call" else −1)`.
  - The one-pass fold `Aggregate` groups the contracts by the exact `(strike, type)` pair. As pandas' `groupby` does by default, it leaves out contracts whose strike or type is absent.
  - Per group it sums exposure, open interest and volume, skipping absent volumes, and takes the plain mean of gamma.
  - The fold is proved equal to the independent definition "totals over the group's members" (`ProfileOf`).
- `KeyLevels` (`key_levels.dfy`) models `identify_key_levels`.
  - It returns nothing for a missing or empty profile.
  - Otherwise it computes the walls (`WallIndex`) and collapses the profile into one net exposure per strike, ascending (`Collapse`).
  - The flip scan `ScanGammaFlip` is a loop that stops at the first strict change of sign. It is proved equal to the functional definition `GammaFlip`/`FirstSignChange`.
  - The total is the sum over all rows, and the regime is Positive Gamma exactly when the total is strictly above zero.
- `GexExamples` (`examples_gex.dfy`) holds worked examples: the first-change rule, the asymmetric flip strike, a strike netting to zero hiding the change, a three-contract table, and a total of exactly zero.

Numbers are exact `real`s. An absent field, pandas' NaN, is `None` or `Null`.

Behaviour of `src/process_data.py` worth noting, all of it modelled as written:

- An empty profile gives no key levels at all (`return None`, `src/process_data.py:130-131`), not a record with total 0.
- The Gamma Flip need not lie strictly between the lowest and highest strikes with nonzero exposure. Going from + to −, it is the lower strike of the pair, which can be the lowest strike of all (`GexExamples.PositiveToNegativeTakesLowerStrike`).
- The sign is −1 for every type other than `"call"`: `"put"`, an unknown type string, or no type. A row with an unknown type string belongs to neither wall partition.
- The total of the grouped profile equals the sum of the per-contract exposures of the contracts that have a strike and a type. `groupby` drops the others.
- A `"data"` value that is a non-empty scalar makes the table constructor raise. The model reports it as `NotRecords`.
- Ties between walls: in the source, `idxmax` takes the first maximal row of a frame sorted by `(strike, type)`, that is, the lowest strike. `WallIndex` states that choice directly.

## Model

| member | source | states |
|---|---|---|
| `OptionsTable.ParseOptionsData` | src/process_data.py:49-80 | Refuses with `InvalidFormat` exactly when the document is missing or has no `data` key. Refuses with `NoOptions` exactly when `data` is empty or null. Refuses with `NotRecords` for a non-empty scalar. Otherwise it returns a table with one row per record in the same order, one column per field seen, each numeric field coerced and every other field passed through. No numeric cell is left holding text. |
| `OptionsTable.CoerceNumericColumns` | src/process_data.py:72-77 | After the loop over the twelve numeric names, every numeric column that exists is replaced by its coerced form. Every other column, the column set and the row count are unchanged. |
| `OptionsTable.Coerce` | src/process_data.py:77 | Coercion never yields text and never fails. Numbers and nulls are kept. A string becomes the number `parse` reads, or null exactly when `parse` reads none. |
| `OptionsTable.FromRecords` | src/process_data.py:69 | The table has one row per record and one column per field name occurring in any record. A record lacking a field reads as null in that column. |
| `GammaExposure.CalculateGex` | src/process_data.py:82-118 | Returns nothing exactly for a missing, row-less or column-less table. Returns a key error exactly when a column it reads is missing. Otherwise returns the grouped profile of the kept contracts, whose exposure total equals the total of the groupable contracts' exposures. |
| `GammaExposure.Clean` | src/process_data.py:99-100 | A contract is kept, and priced, exactly when it has both gamma and open interest, whatever else is missing. |
| `GammaExposure.CleanCounts` | src/process_data.py:99-100 | The filter keeps duplicates: a contract with both greeks appears, priced, in the result exactly as many times as in the input. |
| `GammaExposure.Price` | src/process_data.py:102-108 | The exposure is open interest × gamma × 100 for a call and its negation for every other type, whatever the signs of open interest and gamma. So with non-negative open interest and gamma, a call's exposure is ≥ 0 and any other type's is ≤ 0. The other fields are carried over unchanged. |
| `GammaExposure.AggregateCorrect` | src/process_data.py:110-116 | Keys in the fold are distinct. A key has a bucket exactly when some groupable contract has that `(strike, type)`, and the bucket holds the sums over exactly that group's contracts. |
| `GammaExposure.AggregateProfile` | src/process_data.py:110-116 | The finalised fold has one row per distinct `(strike, type)` pair. Each row has the sums of exposure, open interest and volume over its group and the arithmetic mean of gamma. The exposure summed over rows equals the exposure summed over the groupable contracts. |
| `GammaExposure.GroupExposureSign` | src/process_data.py:105-116 | With non-negative open interest and gamma, a call group's summed exposure is ≥ 0 and any other group's is ≤ 0. |
| `GammaExposure.ProfileSigns` | src/process_data.py:105-116 | In a grouped profile of non-negative contracts, every call row's `gex` is ≥ 0 and every other row's is ≤ 0. |
| `GammaExposure.CalculatedSigns` | src/process_data.py:82-118 | For a table with no negative open interest or gamma, every row `calculate_gex` returns has the sign of its type. |
| `KeyLevels.WallIndex` | src/process_data.py:133-141 | The wall of a partition is absent exactly when the partition is empty. Otherwise it is a row of that partition whose score (exposure for calls, absolute exposure for puts) is ≥ every partition row's, with the lowest strike among the top scores. |
| `KeyLevels.Collapse` | src/process_data.py:143-145 | The per-strike collapse is strictly ascending in strike, has exactly the profile's strikes, gives each strike the net exposure of its rows, and adds up to the profile's total. |
| `KeyLevels.CollapseEntry` | src/process_data.py:143-145 | Each entry of the collapse holds the net exposure of all rows at its strike. |
| `KeyLevels.FirstSignChange` | src/process_data.py:148-158 | Returns the least adjacent index whose two values have strictly opposite signs, or nothing exactly when no such pair exists. |
| `KeyLevels.ScanGammaFlip` | src/process_data.py:147-158 | The loop with early exit returns the flip of the first strict sign change: the lower strike for + to −, the higher for − to +. |
| `KeyLevels.FlipIsNonzeroStrike` | src/process_data.py:147-158 | A flip, when present, is the strike of an entry whose net exposure is nonzero. |
| `KeyLevels.OppositeEndsHaveFlip` | src/process_data.py:147-158 | With no zero entry, if the lowest and highest strikes have opposite signs then a flip exists. |
| `KeyLevels.IdentifyKeyLevels` | src/process_data.py:120-177 | Gives no levels exactly for a missing or empty profile. Otherwise it gives both walls, the flip of the ascending collapse and the total over all rows, with Positive Gamma exactly when the total is > 0, so a zero total is Negative Gamma. |
| `GexExamples.FirstChangeWins` | src/process_data.py:148-158 | For strikes 95 (+120), 100 (+40), 105 (−30), 110 (+10), the flip is 100. |
| `GexExamples.NegativeToPositiveTakesHigherStrike` | src/process_data.py:156-158 | From − to +, the flip is the higher strike. |
| `GexExamples.PositiveToNegativeTakesLowerStrike` | src/process_data.py:153-155 | From + to −, the flip is the lower strike, which here is the lowest strike. |
| `GexExamples.ZeroHidesTheChange` | src/process_data.py:153-158 | For + 0 −, no adjacent pair changes sign strictly, so there is no flip. |
| `GexExamples.TwoContractExposures` | src/process_data.py:105-108 | Call OI 500 × gamma 0.05 prices at 2500, and put OI 300 × gamma 0.04 at −1200. |
| `GexExamples.ThreeRowClean` | src/process_data.py:99-100 | A contract whose gamma is null is dropped, and the others are kept. |
| `GexExamples.TableTotal` | src/process_data.py:96-118 | The three-contract table's profile totals 1300. |

## Left out

- Loading the latest raw file, saving the processed JSON, and `main` (`src/process_data.py:13-47`, `:179-259`). They are file-system I/O, clocks, environment variables, printing and exit codes.
- `src/collect_data.py`, `src/generate_chart.py` and `src/update_readme.py`. They are the network client, chart rendering and report templating.
- Floating-point rounding and the `float(...)` casts. Values are exact reals.
- pandas' string-to-number grammar. It is the `parse` parameter.
- Record values other than null, numbers and strings (booleans, nested objects). Also a `"data"` value that is a JSON object, which pandas would read column-wise.
- The sorted output order of `groupby`. The fold lists groups in order of first appearance. The one place where the order shows, the wall tie-break, is stated directly as "lowest strike".
- The errors pandas raises when sorting a `type` column that mixes strings and numbers.
- Clean: states which contracts are kept (both directions) and, through `CleanCounts`, how many times each is kept, but not that they keep their input order; the group sums do not depend on that order.
- WallIndex: among rows with equal score and equal strike (impossible in a profile, whose `(strike, type)` keys are distinct) it does not state which one is chosen.

# Spaceship Titanic preprocessing and prediction service, modelled in Dafny

This project models the deterministic feature-engineering core of a passenger classification
pipeline.

- **The preprocessing script** (`predict.py`):
  - splits the PassengerId, the Cabin and the Name into parts;
  - maps the True/False flags to 1/0;
  - derives the spending features;
  - fills missing CryoSleep, HomePlanet, Destination, Side, Deck, CabinNumber and Age values by rules and by group-wise mode or median imputation;
  - cuts the age into labelled groups.
- **The two helpers it calls** (`functions/helpers.py`): `split_and_insert` and `fill_missing_values_using_method` with its inner `calculate_value`.
- **The prediction handler of the web service** (`app.py`):
  - rejects tables with missing values or missing feature columns;
  - rebuilds each PassengerId from the zero-padded GroupId and GroupSize;
  - pairs each id with the thresholded classifier score.

How the model represents the system:

- **Tables.** A table is a `Frames.Frame`: an ordered list of column names and a sequence of rows. Each row maps a column name to a cell, which is missing (`None`) or holds a string, an integer or a float.
- **Exceptions.** The exceptions the model covers become an `Err` of a `Result`. The ones it does not cover are listed under "Left out".
- **Operations.** The pure steps are functions. The steps that loop or overwrite the table step by step are methods with a local table variable:
  - the spending imputation loop;
  - the cabin-number write-back loop;
  - the stages of the script;
  - the handler.
- **Lemmas.**
  - Per-operation lemmas give each operation a partner: a round trip, an idempotence, an ordering or a uniqueness fact.
  - `Pipeline.Preprocess` is proved against `Pipeline.Ends`, a per-passenger statement of what the whole script guarantees.
  - `Service.ServiceRestoresId` closes the loop: the record the service writes carries the passenger's original PassengerId.

Files:

| file | what it models |
|---|---|
| `wrappers.dfy` | `Option` and `Result` |
| `frames.dfy` | tables, cells, column reads and writes, masks, `DataFrame.drop` |
| `text.dfy` | `str.split`, `str.join`, `str.zfill`, `int(s)` and `str(n)` on digit strings |
| `stats.dfy` | the mode and the median of a group |
| `splitter.dfy` | `split_and_insert` |
| `imputer.dfy` | `fill_missing_values_using_method` and `calculate_value` |
| `spending.dfy` | predict.py lines 50-77 |
| `rules.dfy` | the flag mapping and the CryoSleep and HomePlanet rules |
| `decks.dfy` | `decks_by_hp` and `fill_deck` |
| `cabins.dfy` | the casts and the cabin-number write-back |
| `ages.dfy` | the rounding of the age and the age groups |
| `pipeline.dfy` | the whole script as a chain of stages |
| `service.dfy` | the `/predict` handler |

## Model

| member | source | states |
|---|---|---|
| Text.FirstIndex | functions/helpers.py:29 | `columns.get_loc` / `list.index`: the result is a position holding the name, and no earlier position holds it |
| Text.SplitOn | functions/helpers.py:32 | `str.split(sep)` gives at least one part, and no part contains the separator |
| Text.JoinSplit | functions/helpers.py:32 | joining the parts of a split with the separator gives back the original string |
| Text.SplitJoin | functions/helpers.py:32 | splitting a join of separator-free parts gives back those parts |
| Text.ZFill | app.py:48-49 | `str.zfill(width)` has length max(len, width); a string at least `width` long is unchanged; an unsigned string is left-padded with '0' and ends with itself |
| Text.NatText | app.py:48 | `str(n)` of a natural number is all digits, with no leading zero |
| Text.ParseNatText | predict.py:183 | `int(str(n)) == n` |
| Text.NatTextParse | predict.py:183 | `str(int(s)) == s` for a digit string without a leading zero |
| Text.ZFillParse | app.py:48-49 | zero-padding `str(int(s))` to `len(s)` gives back any digit string `s`, leading zeros included |
| Stats.Mode | functions/helpers.py:68-71 | the mode is an element of the group, and no value occurs more often |
| Stats.Sort | functions/helpers.py:74-75 | the sort used by the median is sorted and a permutation of its input |
| Stats.SortSorted | functions/helpers.py:74-75 | sorting an already sorted sequence leaves it unchanged |
| Stats.MedianOfSorted | functions/helpers.py:74-75 | of a sorted sequence, the median is the middle element for an odd length and the mean of the two middle ones for an even length |
| Stats.MedianBounds | functions/helpers.py:74-75 | the median lies between the smallest and the largest value of the group |
| Splitter.PopInsertPermutes | functions/helpers.py:39 | `cols.insert(k, cols.pop(i))` permutes the column list |
| Splitter.Reordered | functions/helpers.py:36-40 | the reordering loop keeps exactly the same columns, as a multiset |
| Splitter.ReorderColumns | functions/helpers.py:33-42 | the reordering loop, proved equal to `Reordered` and a permutation of the columns |
| Splitter.FreshLayout | functions/helpers.py:33-42 | for new, distinct column names, the reordered list is the columns up to the split column, then the new columns in order, then the rest |
| Splitter.Parts | functions/helpers.py:32 | the parts of one cell: a missing cell gives one missing part; a string gives its separator-free pieces |
| Splitter.Width | functions/helpers.py:32 | the width of `expand=True` is the largest part count of the column, and 0 only for an empty table |
| Splitter.WidthAttained | functions/helpers.py:32 | some cell of a non-empty column attains that width |
| Splitter.AssignPartsCells | functions/helpers.py:32 | new column `j` holds part `j` of each row's split cell; a shorter split leaves the later new cells missing |
| Splitter.AssignPartsFrame | functions/helpers.py:32 | assigning the parts changes no column other than the new ones |
| Splitter.SplitAndInsert | functions/helpers.py:8-44 | each error in handler order: absent column, fewer than two names, no separator, then pandas' width mismatch. Otherwise the new columns hold the parts, nothing else changes, and the columns are in the reordered layout |
| Splitter.PartsRejoin | functions/helpers.py:32 | rejoining the new columns of a split row with the separator gives back the original cell |
| Splitter.AssignedRejoin | functions/helpers.py:32 | in the assigned frame, rejoining a row's new cells with the separator gives back its source cell when that cell splits into as many parts as there are new columns |
| Imputer.KeyOf | functions/helpers.py:64 | a row has a group key exactly when all its key cells are present, and the key lists those values |
| Imputer.GroupValues | functions/helpers.py:64 | the values of a group are exactly the non-missing target values of the rows sharing the key |
| Imputer.GroupValuesCount | functions/helpers.py:64-70 | a group holds each value exactly as many times as the group's rows hold it in the target, which is what the mode counts |
| Imputer.CalculateValue | functions/helpers.py:67-75 | missing exactly for an empty group; under `mode`, a member of the group that no other value outnumbers; under `median`, a float |
| Imputer.MedianFillBetween | functions/helpers.py:74-75 | the median a group is filled with lies between two of the group's own values |
| Imputer.FillRows | functions/helpers.py:78-93 | only the target column changes, and only where it was missing. A row with a missing key is left alone. Any other missing target takes `calculate_value` of its group |
| Imputer.FillMissingValues | functions/helpers.py:47-95 | raises exactly when there is no key, a key or the target is absent, or `median` meets a non-numeric value. Otherwise the columns are kept and the rows are the filled rows |
| Imputer.ModeFillIsMostFrequent | functions/helpers.py:68-71 | a cell the mode fill wrote is a most frequent value of that row's group |
| Imputer.FillIdempotent | functions/helpers.py:47-95 | filling twice with the same keys and method is filling once |
| Imputer.EmptyGroupStaysEmpty | functions/helpers.py:72-73 | a group with no known value gets none from the fill |
| Imputer.KeyUnchanged | functions/helpers.py:87-90 | the fill never changes a row's group key |
| Imputer.ModeFillFromColumn | functions/helpers.py:68-71 | every value after a mode fill already occurred in the target column |
| Frames.Drop | predict.py:38-39 | `drop(columns=…)` raises exactly when a named column is absent. Otherwise the columns are the rest, and the dropped cells read as missing |
| Rules.MapFlag | predict.py:42-43 | `map({"True": 1, "False": 0})`: "True" gives 1, "False" gives 0, anything else is missing |
| Rules.MapFlags | predict.py:42-43 | the mapped column is the only one that changes, and each cell is mapped |
| Rules.CryoSleepRules | predict.py:80-95 | the three CryoSleep rules only fill missing cells, and a missing cell takes the value of the first rule that applies to its row |
| Rules.InEuropaDecks | predict.py:103 | `isin(["A", "B", "C"])` is the Europa-deck test |
| Rules.HomePlanetRules | predict.py:103-108 | a missing HomePlanet on deck A, B or C becomes Europa, one on deck G becomes Earth, and any other stays missing; known values are kept |
| Spending.Present | predict.py:53 | the numbers of the non-missing spending cells (`skipna`) |
| Spending.SumPositive | predict.py:54 | a sum of non-negative spends is positive exactly when one of them is |
| Spending.TotalPositive | predict.py:53-54 | with non-negative spends, `TotalSpending > 0` exactly when some spending column is positive |
| Spending.MeanBetween | predict.py:71 | a row mean lies between the smallest and the largest of the values it averages |
| Spending.RowAverage | predict.py:71 | `mean(axis=1)` is missing exactly when no spending cell is numeric, and otherwise lies between two of them |
| Spending.SpentFlag | predict.py:54 | SpentMoney is 0 or 1, and 1 exactly when the total is positive |
| Spending.MaxWhere | predict.py:55 | the maximum over the masked rows: missing for an empty mask, attained, and an upper bound |
| Spending.GroupSpent | predict.py:55 | GroupSpentMoney is missing for a missing GroupId, and otherwise 1 exactly when some row of the group spent money |
| Spending.GroupMaxFlag | predict.py:55 | the group maximum of SpentMoney is 0 or 1, and 1 exactly when some group member spent money |
| Spending.AddSpendingFlags | predict.py:53-55 | TotalSpending, SpentMoney and GroupSpentMoney, per row as above; nothing else changes |
| Spending.CapTotals | predict.py:58-60 | every total is at most the cap; totals at or below the cap are unchanged; totals above it become the cap |
| Spending.AddTravelingAlone | predict.py:67-68 | raises on a missing GroupSize; otherwise TravelingAlone is 0 or 1, and 1 exactly when GroupSize is "01" |
| Spending.ImputeSpending | predict.py:70-77 | the loop over the spending columns: a child's spending becomes 0; anyone else keeps known spending and has each missing spend filled with the row average taken before the loop |
| Decks.DecksByHomePlanet | predict.py:133-137 | `decks_by_hp.get(h, [])`: empty exactly for an unknown home planet, and otherwise real deck letters |
| Decks.Distance | predict.py:172 | `abs(spend_mean[deck] - total)`: NaN when either side is NaN, and otherwise the non-negative difference |
| Decks.Keys | predict.py:172 | the keys `min` evaluates in order: raises exactly when some deck is missing from the means table; otherwise one distance per deck |
| Decks.ArgMin | predict.py:172 | `min(key=…)`: a NaN first key stays; otherwise the first position of the least key |
| Decks.Closest | predict.py:172 | raises for an empty deck list or a deck missing from the table; otherwise a listed deck chosen as `min` chooses it |
| Decks.FillDeck | predict.py:145-176 | a known deck is kept. A missing deck on side S or P takes the closest deck by that side's means. Any other side gives NaN |
| Decks.FillDeckExample | predict.py:145-176 | an Earth passenger on side S with total 60 and deck means E 100, F 50, G 10 gets deck F |
| Decks.FillDecks | predict.py:180 | `apply(fill_deck, axis=1)` raises exactly when some row's fill raises; otherwise only Deck changes, known decks stay, and each cell is its row's fill |
| Cabins.AsFloat | predict.py:46 | `astype(float)`: raises on text that is not an unsigned digit string; otherwise a missing cell stays missing and any other cell becomes its float |
| Cabins.AsInt | predict.py:183 | `astype(int)`: raises on a missing cell or on text that is not an unsigned digit string; otherwise the integer value |
| Cabins.CastColumn | predict.py:46 | a cast of a whole column raises exactly when one cell's cast does; otherwise only that column changes, cell by cell |
| Cabins.DeckOf | predict.py:186-189 | the deck of a row, when it is one of the seven the loop visits |
| Cabins.AtLeastOne | predict.py:203 | `np.maximum(p, 1)`: at least 1, and `p` itself when `p >= 1` |
| Cabins.VisitDeck | predict.py:195-209 | one pass of the loop: a missing cabin number on the deck gets the floored prediction for the row's GroupId; nothing else changes |
| Cabins.WriteBackCabins | predict.py:186-209 | raises exactly when a deck has no known cabin number to fit on. Otherwise only CabinNumber changes, each row as `CabinAfter` of all decks |
| Cabins.AllVisited | predict.py:186-209 | after all decks: a known cabin number is kept; a missing one on a listed deck holds a prediction of at least 1; on any other deck it stays missing |
| Cabins.KnownCabinsKept | predict.py:188-189 | the earlier passes never change whether a later deck has a known cabin number to fit on |
| Ages.RoundHalfEven | predict.py:47 | `np.round`: within one half of `x`, and even on a tie |
| Ages.RoundUnique | predict.py:47 | that integer is the only one with both properties |
| Ages.RoundIntegral | predict.py:47 | rounding an integer gives the integer |
| Ages.RoundAge | predict.py:47 | `round().astype(float)` of a cell: raises on text; a missing cell stays missing; a number becomes its rounded float |
| Ages.RoundAgeIdempotent | predict.py:47 | rounding an age twice is rounding it once |
| Ages.RoundAges | predict.py:47 | the whole column raises exactly when one cell does; otherwise only Age changes, cell by cell |
| Ages.AgeBin | predict.py:211-227 | `pd.cut(right=False)`: a label exactly for a non-negative age, and the label of a bin holding the age |
| Ages.BinUnique | predict.py:212 | the bins do not overlap, so the label is determined |
| Ages.WithAgeGroups | predict.py:223-227 | AgeGroup is added, and each of its cells is the bin of the row's Age; nothing else changes |
| Pipeline.Split | predict.py:19-35 | each split used by the script raises exactly when the column is absent or the split width is wrong. Otherwise new column `j` holds part `j` and nothing else changes |
| Pipeline.SplitStage | predict.py:19-39 | succeeds exactly when PassengerId, Cabin and Name are columns and split into 2, 3 and 2 parts. Then GroupId and GroupSize are the id's halves; Deck, CabinNumber and Side are the cabin's parts; LastName is the name's second word; the split sources and FirstName are gone |
| Pipeline.FlagStage | predict.py:42-47 | raises exactly when CryoSleep, VIP or Age is absent or a CabinNumber or an Age cell cannot be cast, with `KeyError` for CryoSleep, then VIP, then the cast error, then `KeyError` for Age, in script order. Otherwise CryoSleep and VIP are mapped to 1/0, CabinNumber is a float and Age is rounded; nothing else changes |
| Pipeline.SpendStage | predict.py:50-77 | raises exactly on a missing GroupSize. Otherwise: TotalSpending is the capped total; SpentMoney, GroupSpentMoney and TravelingAlone are as above; the spending columns are imputed. The features are computed from the spending before imputation |
| Pipeline.CryoStage | predict.py:80-97 | given a CryoSleep column, raises exactly when GroupId is absent. Otherwise the rows are the three rules followed by the group mode fill; only missing CryoSleep cells are filled, a cell a rule decides takes the rule's value, and 0/1 flags stay 0/1 |
| Pipeline.ModeFill | functions/helpers.py:47-95 | a mode fill raises exactly when the target or a key is absent; otherwise it is `FillRows`, and each value it writes comes from the column |
| Pipeline.HomePlanetStage | predict.py:99-113 | raises exactly when one of its five columns is absent. Otherwise the rows are the mode fills by GroupId, then the deck rules, then the mode fills by LastName and by Deck and Side (`HomePlanetFills`); only missing HomePlanet cells are filled; one the group fill leaves missing becomes Europa on deck A, B or C, and Earth on deck G |
| Pipeline.DestinationStage | predict.py:114-123 | the five Destination fills raise exactly when a column they use is absent; otherwise the rows are the mode fills by Deck, CabinNumber and Side, by Deck and Side, by GroupId and LastName, by GroupId and by LastName, in that order (`DestinationFills`); they fill only missing cells, with values from the column |
| Pipeline.SideStage | predict.py:124-129 | the three Side fills raise exactly when a column they use is absent; otherwise the rows are the mode fills by GroupId, by LastName and by HomePlanet and Destination, in that order (`SideFills`); they fill only missing cells, with values from the column |
| Pipeline.FinalCabin | predict.py:186-209 | a known cabin number is kept; a missing one on a listed deck becomes a number of at least 1; any other stays missing |
| Pipeline.DeckStage | predict.py:132-209 | succeeds exactly when every deck fill succeeds, every GroupId casts to int and every deck can be fitted. Then Deck is filled, GroupId is an int and CabinNumber is final |
| Pipeline.DeckFits | predict.py:187-194 | after the deck fill, the regression loop can fit every deck exactly when `EveryDeckFits` holds of the input |
| Pipeline.DropColumn | predict.py:230-231 | dropping one column raises exactly when it is absent; otherwise it removes that column and no other |
| Pipeline.AgeStage | predict.py:215-231 | raises on a missing key, Age, VIP or LastName column, or a non-numeric age. Otherwise Age is median-filled, AgeGroup is each row's bin, and VIP and LastName are gone |
| Pipeline.CastErrorNotMissing | predict.py:46-47 | a failed cabin number cast is never a `KeyError`, so the cast error and a missing Age are told apart |
| Pipeline.Preprocess | predict.py:19-231 | the whole script. It raises without a PassengerId and keeps the row count. Each output row satisfies `Ends` for its input row. AgeGroup is present; VIP and LastName are not |
| Pipeline.PreprocessRows | predict.py:19-231 | the stage postconditions together give `Ends` for every passenger |
| Pipeline.IdsEnd | predict.py:19-23 | the final GroupSize is the id's second half, the final GroupId is the int of its first half, and TravelingAlone is 1 exactly when the second half is "01" |
| Pipeline.SpendEnd | predict.py:53-60 | the final TotalSpending is the capped total of the passenger's input spending |
| Pipeline.CryoEnd | predict.py:42 | an input CryoSleep of "True" ends as 1, and "False" as 0 |
| Pipeline.PlacesEnd | predict.py:96-129 | a known HomePlanet or Destination reaches the output unchanged |
| Pipeline.DroppedEnd | predict.py:38-39 | PassengerId, Cabin, Name and FirstName stay gone to the end |
| Service.NullCount | app.py:29-30 | a column's null count is at most the row count, and 0 exactly when no cell of the column is missing |
| Service.Missing | app.py:38 | the missing required columns are exactly the required names the table lacks |
| Service.MissingInOrder | app.py:38 | the missing columns are listed in the order of the required list |
| Service.IdText | app.py:48-52 | the rebuilt PassengerId is at least seven characters |
| Service.Predict | app.py:21-64 | the errors in handler order: nulls, then missing columns, then the model, then GroupId, then the score length. Records exactly when none occurs; then one per row, the padded id paired with score > 0.5 |
| Service.IdRoundTrip | app.py:48-52 | a well-formed PassengerId, split at '_' with its group half cast to int, pads back to itself |
| Service.ServiceRestoresId | app.py:48-52 | the record for a preprocessed passenger carries that passenger's own well-formed PassengerId |

## Left out

- **Outside the model:**
  - Reading `data/test.csv`, the HTTP post, Flask, `request.get_json`, `jsonify`, `print`, loading the model with joblib, and the home page.
  - The classifier's scores are the `scores` parameter of `Service.Predict`. An `Err` there stands for an exception in `model.predict`.
  - The JSON round trip from the script's records to the handler's table is treated as the identity.
- **Given as parameters:**
  - The spending cap (`quantile(0.95)`, line 58) is the `cap` parameter.
  - The per-side tables of mean spending by deck (lines 63-64 and 140-141) are `sMeans` and `pMeans`.
  - The fitted regression with `np.round` of its prediction (lines 193-202) is the `predict` parameter.
  - Python's float repr is the `floatText` parameter.
  - Quantiles, means of groups, least squares and float printing are not modelled.
- **Floats:**
  - Floats are exact reals. Rounding errors of sums and means are not modelled.
  - NaN is a missing cell.
- **The `astype("string")` at lines 15-16:** not modelled. Text columns are strings from the start.
- **Flag values:** the 0/1 flags (CryoSleep, VIP, SpentMoney, GroupSpentMoney, TravelingAlone) are held as integers. pandas holds a mapped column with NaN as floats 0.0/1.0. The model keeps the values, not the dtype.
- **Imputer.CalculateValue:**
  - A mode tie is broken by the first most frequent value in row order. pandas picks the smallest in sort order. The contract states only that the value is most frequent.
  - Group keys compare cell values structurally, so the integer 1 and the float 1.0 are different keys. pandas merges them.
- **Splitter.SplitAndInsert:**
  - The separator is one character. Multi-character and regex separators are not modelled.
  - The `.str` accessor's error on a non-string column is not modelled. Numbers split as missing parts.
  - Duplicate names in `new_cols` are not modelled. The cell contract needs them distinct.
- **Splitter.Move:** a name not in the list leaves the list unchanged. The Python `list.index` would raise there, but the callers never pass such a name.
- **Copies and aliasing:**
  - `df[new_cols] = …` at helpers.py line 32 writes into the caller's DataFrame before the reordered copy is returned. The model returns a new value and does not model that aliasing.
  - The `inplace=True` calls are modelled as returning the new table.
- **Error messages:**
  - pandas' error messages are approximated by fixed texts: the KeyError text, `Splitter.WidthError`, `Service.LengthError` and `Ages.RoundError`.
  - `Service.NullMessage` only approximates pandas' Series printout.
  - `Service.Predict` does not pin down the message of the length error.
- **Column reads:** a missing CryoSleep, VIP, Age or spending column raises `KeyError` at its first read in the script. The model checks each at that point: `Pipeline.FlagStage` checks CryoSleep and VIP before the mappings and Age after the cabin number cast; `Pipeline.Preprocess` checks the five spending columns after `FlagStage`. pandas reports a missing spending column as a list lookup (`"['Spa'] not in index"`); the model gives the first missing name in the single-column form. No ensures of `Pipeline.Preprocess` states the spending check.
- **Pipeline.Preprocess:**
  - The contract states the per-passenger facts in `Ends` and the presence of AgeGroup.
  - It does not state the full output column list.
  - It does not state the filled values of HomePlanet, Destination and Side beyond "known values are kept". The stage contracts state them.
  - `Ends` says nothing about the final Side, Deck, CabinNumber, Age, SpentMoney and GroupSpentMoney cells, nor about the five spending columns. The stage contracts state those.
  - It states no condition under which the script succeeds. Each stage states its own success condition; they are not combined into one for the whole script.
- **Decks.FillDeck:** where Deck is missing, a missing Side is read as NaN. It compares unequal to "S" and "P", so the deck stays missing.
  - Under the nullable string dtype of lines 15-16, `side == "S"` gives NA instead. The `if` would then raise TypeError, which is not modelled.
- **Masks:** `Frames.StrMask` and `Rules.NotStrMask` read a missing cell as False. That is how pandas reads the NA of the nullable string dtype of lines 15-16 in a `.loc` mask. Under NumPy's object comparison `NaN != s` would be True instead, and that reading is not modelled.
- **Cabins.AsFloat:** only unsigned decimal digit strings convert. Python's `float` also accepts signs, a decimal point, an exponent, surrounding blanks, `nan` and `inf`; the model raises on those.
- **Cabins.AsInt:** only unsigned decimal digit strings convert. Python's `int` also accepts a sign, surrounding blanks and `_` separators; the model raises on those.
- **Spending cells:** a text spending cell is read as missing by the sums and means. pandas would raise instead.
- **Age groups:** `pd.cut` gives a Categorical. The model holds its label as a string cell.
- **Service.CellText:** the `astype(str)` of an integer is its decimal digits. Of a float it is `floatText`, so the `.0` a float GroupId would carry is not modelled.

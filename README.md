# Fuel-price dashboard, modelled in Dafny

`dashboard.py` is a Streamlit script over the Brazilian fuel-price survey
file (one row per station, product and price observation). It

1. cleans the table: drops the empty purchase-price column, turns the
   comma-decimal sale-price text into numbers, and shortens two header labels;
2. offers the sorted distinct states, then the sorted distinct municipalities
   of the chosen state;
3. takes the cheapest gasoline record of the chosen municipality
   (`menor_preco`, an `idxmin` over the matching rows);
4. writes that record's address as one string (`endereco_completo`), geocodes
   it once and puts the point on a map.

The model follows the code in this order, one module per step:

- `Text`: the character replacement, ASCII upper case, and the code-point order
  that `np.sort` uses on strings.
- `Decimals`: sale prices as exact decimals, and the grammar that `float`
  accepts for them.
- `Frames`: the table, the three cleaning steps as pure functions
  (`CleanSpec`), and the module-level `df` as the class `DataFrame`, whose
  methods update it in place.
- `Stations`: the cleaned rows read as station records.
- `Selection`: the two sidebar lists.
- `Pricing`: the cheapest-record lookup, both as written and restricted to
  the chosen state.
- `Address`: the address string and its inverse.
- `Dashboard`: the single geocoding call.

The geocoder is a function parameter `string -> Option<Point>`.

The script has no candidate list, no geocoding fallback and no product
choice: it takes one `idxmin`, makes one geocoding call, assumes the call
succeeds (`location.point` on `None` raises), and always asks for
`'gasolina'`. `Dashboard.LocateAsWritten` follows lines 40 to 50 as written;
`Dashboard.Locate` is the same with the state added to the lookup's mask
(see Findings).

## Model

| member | source | states |
|---|---|---|
| Text.ReplaceChar | dashboard.py:13 | `x.replace(',', '.')`: same length; each position is `b` where the input had `a` and unchanged elsewhere; no `a` is left |
| Text.ReplaceCharAbsent | dashboard.py:13 | a price written without a comma passes through the replacement unchanged |
| Text.ReplaceCharAppend | dashboard.py:13 | the replacement distributes over concatenation |
| Text.Upper | dashboard.py:36-37 | `str.upper` on ASCII: same length, each lower-case letter becomes its upper-case letter, everything else is kept |
| Text.UpperIdempotent | dashboard.py:36-37 | upper-casing an upper-cased query changes nothing |
| Text.UpperFixed | dashboard.py:36-37 | a name without lower-case letters is its own upper-case form |
| Text.Less | dashboard.py:18 | Python's `<` on `str`: lexicographic by code point, a proper prefix first |
| Text.LessIrreflexive | dashboard.py:18 | the string order of `np.sort` is irreflexive |
| Text.LessTransitive | dashboard.py:18 | the string order is transitive |
| Text.LessTotal | dashboard.py:18 | any two different strings are ordered one way or the other |
| Text.LessAsymmetric | dashboard.py:18 | no two strings are each less than the other |
| Decimals.IsLiteral | dashboard.py:13 | the strings `float` accepts here: an optional sign, then only digits and dots, at most one dot, at least one digit |
| Decimals.Parse | dashboard.py:13 | `float(text)` on a dot-decimal literal; a negative result only comes from a leading '-' |
| Decimals.ParseAcceptsLiterals | dashboard.py:13 | `float` succeeds exactly on the literals of the grammar (sign, digits, at most one dot, some digit), stated independently of the parser |
| Decimals.FormatParse | dashboard.py:13 | every decimal written with a dot parses back to exactly that decimal |
| Decimals.CommaFormatParse | dashboard.py:13 | a price written with a decimal comma, after the replacement, is the dot form and parses to exactly the decimal written |
| Decimals.ReplaceSeparator | dashboard.py:13 | in a comma-decimal numeral only the separator changes under the replacement |
| Decimals.ParsePlusSign | dashboard.py:13 | a leading '+' does not change what `float` returns |
| Decimals.ParseMinusSign | dashboard.py:13 | a leading '-' negates the result of the rest, and is rejected exactly when the rest is |
| Decimals.ParseLeadingZero | dashboard.py:13 | a leading zero does not change it either ("05.49" is "5.49", "0.5" is ".5") |
| Decimals.ParseTrailingDot | dashboard.py:13 | a trailing dot without fraction digits does not change it ("5." is "5") |
| Decimals.ParseExample | dashboard.py:13 | the raw text "5,49" becomes exactly 549 hundredths, the value 5.49 |
| Frames.Lookup | dashboard.py:36-37 | `row[label]` reads the cell under the first column with that label; it is missing exactly when the label is absent |
| Frames.LookupAt | dashboard.py:36-37 | that cell sits at the first position the label occurs |
| Frames.Kept | dashboard.py:10 | the labels left after the drop are exactly the old labels other than the dropped one |
| Frames.DropFrom | dashboard.py:10 | the cells a row keeps after the drop: one per kept label |
| Frames.DropColumn | dashboard.py:10 | `df.drop(label, axis=1)` fails with KeyError exactly when the label is absent; otherwise the label is gone, the rows keep their number and stay well formed |
| Frames.DropLookup | dashboard.py:10 | after the drop every other label reads the same cell as before |
| Frames.KeptAppend | dashboard.py:10 | the drop keeps the remaining labels in order |
| Frames.DropFromAppend | dashboard.py:10 | the drop keeps the remaining cells of a row in order |
| Frames.SalePriceOf | dashboard.py:13 | the lambda succeeds exactly on a text cell whose text, with commas turned into dots, is a literal, and then returns the value `Parse` gives that text; a non-text cell fails with `NotText`, a text that is no literal with `NotNumeric` of the replaced text |
| Frames.SalePriceFormat | dashboard.py:13 | a cell holding a decimal written with a comma converts to exactly that decimal's value |
| Frames.ApplyColumn | dashboard.py:13 | `Series.apply` over the column succeeds exactly when every cell converts, then replaces each cell by its number; otherwise it fails with the first failing row's error |
| Frames.ApplyStep | dashboard.py:13 | one more row extends the result of the previous rows by that row's outcome |
| Frames.ApplyFirstFailure | dashboard.py:13 | the first rejected row decides the error of the whole `apply` |
| Frames.ApplyTo | dashboard.py:13 | the column assignment fails with KeyError on an absent label; on success the labels and row count stay |
| Frames.ApplyLookup | dashboard.py:13 | after the assignment the column reads the converted number and every other label reads what it read before |
| Frames.ApplyFails | dashboard.py:13 | the assignment fails exactly when some row's cell is rejected, with the error of the first such row |
| Frames.RenameColumns | dashboard.py:16 | each label maps through the dictionary, labels not in it stay |
| Frames.Rename | dashboard.py:16 | `df.rename(columns=...)` keeps the rows and the number of labels |
| Frames.RenameAvoids | dashboard.py:16 | renaming introduces no label that was neither present nor a new name |
| Frames.RenameLookupOther | dashboard.py:16 | a label the dictionary neither renames nor produces reads the same cell |
| Frames.RenameLookupRenamed | dashboard.py:16 | a renamed label reads the cell of its old label when the new name was free |
| Frames.CleanSpec | dashboard.py:10-16 | the three cleaning steps in order; on success the table is well formed with the same number of rows |
| Frames.CleanSteps | dashboard.py:10-16 | a successful clean went through the drop, then the conversion, then the rename |
| Frames.CleanDropsPurchasePrice | dashboard.py:10 | the cleaned table has no purchase-price column |
| Frames.CleanSalePrice | dashboard.py:13 | in the cleaned table the sale price is the converted raw cell |
| Frames.CleanRenamed | dashboard.py:16 | "Estado" and "Regiao" read what "Estado - Sigla" and "Regiao - Sigla" read in the raw file |
| Frames.CleanRenamedLabel | dashboard.py:16 | the same for either renamed label |
| Frames.CleanKeepsOthers | dashboard.py:10-16 | every label the cleaning does not touch reads the same cell as before |
| Frames.DataFrame.constructor | dashboard.py:7 | `df` holds the table as read |
| Frames.DataFrame.Drop | dashboard.py:10 | rebinding `df` to the drop result; on KeyError `df` is unchanged |
| Frames.DataFrame.Apply | dashboard.py:13 | the row-by-row conversion loop; `df` changes only after every row converts, and then to `ApplyTo`'s result |
| Frames.DataFrame.RenameLabels | dashboard.py:16 | rebinding `df` to the renamed table |
| Frames.DataFrame.Clean | dashboard.py:10-16 | lines 10 to 16 in order; `df` ends as `CleanSpec` says, or as the last successful step left it |
| Stations.TextField | dashboard.py:43 | `dados[label]` for a text field: succeeds exactly when the label holds text, and reads that text |
| Stations.NumberField | dashboard.py:36-37 | the numeric sale-price cell, read the same way |
| Stations.StationOf | dashboard.py:36-43 | a row is a station record exactly when every field the dashboard reads is present and of the right kind |
| Stations.StationsOf | dashboard.py:36-43 | all rows as records, in table order, when every row reads |
| Stations.Stations | dashboard.py:36-43 | one record per row of the cleaned table, each read from its row |
| Stations.CleanedStation | dashboard.py:13-16 | a record's price is the lambda's result on its raw sale-price cell, and when that cell is a decimal written with a comma, exactly that decimal's value; its state is the raw "Estado - Sigla" |
| Selection.AscendingDistinct | dashboard.py:18 | a strictly ascending list has no duplicates |
| Selection.Insert | dashboard.py:18 | inserting keeps the list strictly ascending and adds exactly the new value |
| Selection.SortedDistinct | dashboard.py:18 | `np.sort(x.unique())`: strictly ascending, holding exactly the values of the input |
| Selection.HeadLeast | dashboard.py:18 | the head of a strictly ascending list precedes every other element |
| Selection.AscendingUnique | dashboard.py:18 | two strictly ascending lists with the same elements are equal |
| Selection.SortedDistinctUnique | dashboard.py:18 | sort-of-unique is the only strictly ascending listing of the values |
| Selection.EstadoColumn | dashboard.py:18 | `df['Estado']`, position by position |
| Selection.MunicipiosOf | dashboard.py:26 | the municipalities of the chosen state's rows, exactly |
| Selection.ListaEstados | dashboard.py:18 | `lista_estados`: strictly ascending, holding exactly the states of the records |
| Selection.ListaMunicipios | dashboard.py:26 | `lista_municipios`: strictly ascending, holding exactly the municipalities with a record in the chosen state |
| Selection.CascadeNonEmpty | dashboard.py:18-26 | choosing a listed state always offers some municipality |
| Selection.MunicipioHasStation | dashboard.py:26 | every listed municipality has a record in the chosen state |
| Pricing.Matches | dashboard.py:36-37 | the script's mask: "Municipio" equals `cidade.upper()` and "Produto" equals `combustivel.upper()` |
| Pricing.Selects | dashboard.py:26-37 | that mask with the optional chosen state added: the record also lies in that state |
| Pricing.IdxMin | dashboard.py:36-37 | `idxmin` over the rows the mask selects: none exactly when it selects nothing, otherwise the index of a selected row with the least price and no earlier selected row at that price |
| Pricing.FirstMinUnique | dashboard.py:36-37 | that index is unique |
| Pricing.IdxMinSameSelection | dashboard.py:36-37 | two masks that select the same rows give the same `idxmin` |
| Pricing.MenorPreco | dashboard.py:34-38 | `menor_preco` as written: fails exactly when no record matches municipality and product; returns a matching record whose price is at most every matching price, the row of `idxmin` (no earlier match at that price) |
| Pricing.MenorPrecoNoEstado | dashboard.py:34-38 | the lookup with the chosen state in the mask: fails exactly when no record of that state matches; returns a matching record of that state, as cheap as any such record, the `idxmin` row of the table (no earlier such record at that price) |
| Pricing.NoEstadoAgrees | dashboard.py:26-37 | when every matching record lies in the chosen state, both lookups return the same record |
| Address.EnderecoCompleto | dashboard.py:43 | the f-string: street, number, neighbourhood, municipality, state and postal code, separated by ", " |
| Address.SplitJoin | dashboard.py:43 | cutting at ", " gives back comma-free parts that were joined |
| Address.EnderecoFields | dashboard.py:43 | when no field holds a comma, the address string determines the six fields in order |
| Address.EnderecoExample | dashboard.py:43 | the layout on a sample record |
| Dashboard.Geocoded | dashboard.py:43-50 | the record's address is geocoded once: no station exactly when the lookup failed, a geocoding failure exactly when the address has no point, otherwise that point |
| Dashboard.LocateAsWritten | dashboard.py:40-50 | no station exactly when no record matches municipality and gasoline; otherwise the point of the `idxmin` record's address (cheapest, earliest row at that price), a geocoding failure only when that address has no point |
| Dashboard.Locate | dashboard.py:40-50 | the same with the chosen state in the mask: no station exactly when no record of that state matches; otherwise the point of the address of the state's `idxmin` record |
| Dashboard.SingleLookup | dashboard.py:49-50 | only the chosen record's address is geocoded: geocoders agreeing on it give the same outcome |
| Dashboard.FuelLabel | dashboard.py:40 | `'gasolina'.upper()` is the data's "GASOLINA" |
| Dashboard.MenorPrecoGasolina | dashboard.py:40 | the gasoline query for an upper-case municipality succeeds exactly when a gasoline record of that municipality exists |
| Dashboard.ListedSelectionFindsStation | dashboard.py:18-40 | a listed state and municipality with a gasoline record always yield a station, with either lookup |
| Dashboard.CrossStateListed | dashboard.py:18-26 | with two equally named municipalities in different states, the second one's state and municipality are offered in the sidebar |
| Dashboard.CrossStateLookup | dashboard.py:36-50 | choosing them, `menor_preco` as written returns the other state's cheaper record, and its address is the one geocoded |
| Dashboard.CrossStateCorrected | dashboard.py:36-50 | in the same situation the state-restricted lookup returns the chosen state's record, and its address is geocoded |

## Left out

- Reading the CSV file (line 7) is not modelled. The raw table is a value given to `DataFrame`'s constructor.
- The Streamlit widgets and the map (lines 21-32, 51-56) are not modelled. The chosen state and municipality are parameters, and the point is the result of `LocateAsWritten` or `Locate`.
- The Nominatim geocoder and the network (lines 46-49) are not modelled. The geocoder is a function parameter.
- Decimals.Parse: prices are exact decimals rather than IEEE doubles. The rounding `float` performs is not modelled.
- Decimals.Parse: accepts only sign, ASCII digits and one optional dot. `float` also accepts exponents, "inf", "nan", surrounding whitespace, digit underscores and non-ASCII decimal digits; such strings in the price column are rejected here.
- Text.Upper: upper-cases ASCII letters only. Python's `str.upper` also maps accented and other non-ASCII letters.
- Text.Less: compares strings by code point, as Python does. Locale-aware ordering is out of scope.
- Missing (NaN) cells are modelled only in the sale-price column, where the lambda rejects them. A row whose other fields are missing or non-text does not read as a station (`Stations.StationOf` fails).
- Stations.Stations: one unreadable row anywhere makes the whole table fail to read, so the table has no station model at all. Every result of `Selection`, `Pricing` and `Dashboard` is stated over a table whose every row reads. In the script the effect of a missing (NaN) field depends on the field:
  - a missing "Estado" in any row makes `np.sort` at line 18 raise TypeError (it compares a float with strings), whatever the user chooses;
  - a missing "Municipio" in a row of the chosen state does the same at line 26;
  - a missing street, number, neighbourhood or postal code only shows as "nan" in the address at line 43, and only when its row is the chosen record;
  - a missing "Produto" never affects the script.
- "Numero Rua" is read as text. If pandas parses that column as numbers, the f-string's digit formatting is not modelled.
- Duplicate column labels are handled by `Lookup` reading the first occurrence. pandas would return several columns there.
- Dashboard.Locate: uses the corrected, state-restricted lookup (see Findings). The script as written is `Dashboard.LocateAsWritten`.

## Findings

| source | as written | input that shows it | evidently intended | confidence | as-written member | corrected member |
|---|---|---|---|---|---|---|
| dashboard.py:36-37 | `menor_preco` filters on municipality and product only, not on the state chosen at line 21 | two gasoline records of "SANTA LUZIA", one in MG (cheaper), one in PB; choose PB, then SANTA LUZIA: the MG record is returned and geocoded | the cheapest record of the chosen municipality within the chosen state, as `lista_municipios` (line 26) already filters by state | not executed | Pricing.MenorPreco, Dashboard.LocateAsWritten, Dashboard.CrossStateLookup | Pricing.MenorPrecoNoEstado, Dashboard.Locate, Dashboard.CrossStateCorrected |

# Postcode distance calculator — Dafny model

This project models the decision logic of a small batch utility that reads a
table of UK postcode pairs, checks the format of each code, asks a postcode
dataset for the distance between the two codes, converts it to miles and
stores the result in a `distance_miles` column. Three pieces of
`postcode_distance_calculator.py` are modelled:

- **Format check** (`is_valid_postcode`), module `Postcode`. The source joins
  two anchored regular expressions with "or". Module `Regex` writes those two
  patterns down as data, atom by atom, with a backtracking matcher for their
  language. `Postcode` recognises the same strings by hand, as "outward code,
  one optional whitespace character, inward code", or an outward code alone,
  and proves that both accept the same strings. That includes a quirk of `$`: it also matches just before a final
  newline, so `"SW1A 1AA\n"` is accepted.
- **Distance resolver** (`get_distance_between_postcodes`), module `Resolver`.
  It normalises both codes (`strip()`, then `upper()`) and returns the
  `"Invalid postcode"` sentinel when either code fails the check. Otherwise it
  asks the dataset for the distance. A missing answer (NaN) also becomes the
  sentinel. A present answer is converted with the factor 0.621371 and
  rounded to two decimals. The dataset is a parameter: a function from two
  normalised codes to an optional distance in kilometres.
- **Table processor** (`calculate_distances_from_csv`), module `Frame`. A
  missing file, a file that fails to load, or an index at or above the column
  count makes the run return `None`. So does an index below minus the column
  count, because Python's `columns[idx]` raises there. Each row gets a distance
  cell: the sentinel if a postcode cell is missing, otherwise the resolver's
  answer. A number in a postcode cell raises in `strip()`, and that aborts the
  whole run with `None`. The cells go into `distance_miles`, which overwrites
  a column of that name if there is one and is appended last otherwise.
  The processor receives the per-row resolver as a function argument;
  `Frame.Run` passes it `Resolver.Resolve` over the dataset. `ProcessTable`
  does the same work as an explicit loop over the rows and is proved equal to
  the functional `Process`.

Module `Text` holds the character classes, Python's `str.strip()` (over the
full set of characters `str.isspace()` accepts, which is also the set `\s`
matches) and `str.upper()` on ASCII letters. `Wrappers` holds `Option`.

Three behaviours of the code worth knowing:
- The code checks only the upper bound of a column index. Negative indices
  count from the end of the column list.
- An existing `distance_miles` column is overwritten rather than appended
  again.
- The resolver raises on a non-string cell, which turns into `None` for the
  whole run.

## Model

| member | source | states |
|---|---|---|
| Text.IsSpace | postcode_distance_calculator.py:15 | the characters `str.isspace()` accepts, which are the ones `\s` matches in a `str` pattern and the ones `strip()` removes |
| Text.StripLeft | postcode_distance_calculator.py:21-22 | the leading part of `strip()`: the result is the suffix of the input that starts at its first non-whitespace character, and everything removed is whitespace |
| Text.StripRight | postcode_distance_calculator.py:21-22 | the trailing part of `strip()`: the result is the prefix of the input that ends at its last non-whitespace character, and everything removed is whitespace |
| Text.Strip | postcode_distance_calculator.py:21-22 | `strip()` never lengthens its input and leaves whitespace at neither end |
| Text.StripIgnoresPadding | postcode_distance_calculator.py:21-22 | any whitespace added before or after a string leaves its stripped form unchanged |
| Text.StripUnpadded | postcode_distance_calculator.py:21-22 | `strip()` leaves a string with whitespace at neither end unchanged |
| Text.StripIdempotent | postcode_distance_calculator.py:21-22 | stripping an already stripped string changes nothing |
| Text.StripUpperCommute | postcode_distance_calculator.py:21-22 | upper-casing then stripping equals stripping then upper-casing, because case mapping neither creates nor removes whitespace |
| Text.Upper | postcode_distance_calculator.py:21-22 | ASCII upper-casing keeps the length and maps each character on its own |
| Text.UpperIdempotent | postcode_distance_calculator.py:21-22 | upper-casing twice equals upper-casing once |
| Text.UpperHasNoLowerLetter | postcode_distance_calculator.py:21-22 | after `upper()` no lower-case ASCII letter remains |
| Regex.PatternsShareOutward | postcode_distance_calculator.py:15-16 | the two patterns as transcribed, atom by atom: the full pattern begins with the whole outward-code pattern, then allows at most one whitespace character and whitespace nowhere else; the outward-code pattern allows no whitespace |
| Regex.Matches | postcode_distance_calculator.py:15-16 | the whole string is in the language of the atom sequence, every repetition count of every atom tried in turn, as the backtracking engine does |
| Regex.AnchoredMatch | postcode_distance_calculator.py:15-16 | `re.match` of `^…$` succeeds: the pattern matches the whole string, or the whole string but a final newline, which `$` also accepts |
| Regex.StepOptional | postcode_distance_calculator.py:15 | an optional atom (`[0-9A-Z]?`, `\s?`) matches either nothing or one character of its class, before the rest of the pattern |
| Regex.StepOne | postcode_distance_calculator.py:15 | a single-character atom (`[0-9]`) consumes exactly one character of its class |
| Regex.StepOneOrTwo | postcode_distance_calculator.py:15 | `[A-Z]{1,2}` consumes one or two capital letters, trying both |
| Regex.StepTwo | postcode_distance_calculator.py:15 | `[A-Z]{2}` consumes exactly two capital letters |
| Postcode.IsValidPostcode | postcode_distance_calculator.py:14-17 | `is_valid_postcode`: the string is an outward code alone, or an outward code, at most one whitespace character and an inward code; either form may be followed by one newline |
| Postcode.ValidIffPatternsMatch | postcode_distance_calculator.py:14-17 | `is_valid_postcode` is true exactly when `re.match` succeeds for the full pattern or for the outward-only pattern, including the `$` allowance for one final newline |
| Postcode.FullCodeIsFullPattern | postcode_distance_calculator.py:15 | the outward-code, optional-whitespace, inward-code recogniser accepts exactly the language of `[A-Z]{1,2}[0-9][0-9A-Z]?\s?[0-9][A-Z]{2}` |
| Postcode.LeftToRightIsFullCode | postcode_distance_calculator.py:15 | reading a full code from the left, atom by atom, and reading it from the right, inward code first, accept the same strings |
| Postcode.OutwardCodeIsShortPattern | postcode_distance_calculator.py:16 | the outward-code recogniser accepts exactly the language of `[A-Z]{1,2}[0-9][0-9A-Z]?` |
| Postcode.OutwardCodeShape | postcode_distance_calculator.py:16 | an outward code has 2 to 4 characters, starts with a capital letter and has a digit in position 1 or 2 |
| Postcode.FullCodeShape | postcode_distance_calculator.py:15 | a full code has 5 to 8 characters, starts with a capital letter and has the sector digit third from the end |
| Postcode.ValidPostcodeShape | postcode_distance_calculator.py:14-17 | every accepted string (so never the empty one) has 2 to 9 characters, starts with a capital letter and holds a digit; a ninth character is the final newline; every character is a capital letter, a digit or whitespace |
| Postcode.ValidPostcodeLength | postcode_distance_calculator.py:14-17 | an accepted string has 2 to 9 characters |
| Postcode.LowerCaseRejected | postcode_distance_calculator.py:15-17 | a string with a lower-case letter is never accepted; the check is case-sensitive |
| Postcode.ValidWithoutTrailingSpace | postcode_distance_calculator.py:15-17 | on a string that does not end in whitespace, acceptance means being a postcode, with at most 8 characters |
| Postcode.Examples | postcode_distance_calculator.py:14-17 | `SW1A 1AA`, `EC1A 1BB`, `M1 1AE`, `B33 8TH`, `CR2 6XH`, `SW1A` and `EC1A1BB` are accepted; the empty string, `NOT-A-CODE` and `1AA 1AA` are rejected |
| Postcode.DoubleSpaceRejected | postcode_distance_calculator.py:15 | `SW1A  1AA`, with two spaces between the outward and inward code, is rejected: `\s?` allows at most one |
| Resolver.Normalise | postcode_distance_calculator.py:21-22 | a normalised code is no longer than its input, has no whitespace at either end and no lower-case letter |
| Resolver.NormaliseIgnoresCase | postcode_distance_calculator.py:21-22 | inputs that differ only in letter case normalise to the same code |
| Resolver.NormaliseIdempotent | postcode_distance_calculator.py:21-22 | normalising a normalised code changes nothing |
| Resolver.RoundHalfEven | postcode_distance_calculator.py:33 | `round` picks the nearest integer, and on a tie the even one |
| Resolver.Round2 | postcode_distance_calculator.py:33 | `round(x, 2)` is a whole number of hundredths within 0.005 of `x`, and not negative when `x` is not |
| Resolver.KmToMiles | postcode_distance_calculator.py:32-33 | the mile value is within half a hundredth of the kilometre value times 0.621371, and not negative when the kilometre value is not |
| Resolver.Resolve | postcode_distance_calculator.py:20-33 | a distance comes back exactly when both normalised codes are postcodes and the dataset knows the pair, and it is the converted dataset value; every other path gives the sentinel |
| Resolver.InvalidCodeShortCircuits | postcode_distance_calculator.py:24-25 | if either normalised code fails the check, the answer is the sentinel in both argument orders and for every dataset |
| Resolver.ValidCodesConsultLookup | postcode_distance_calculator.py:27-33 | with two valid codes, the answer is the sentinel exactly when the dataset misses, and otherwise the converted distance |
| Resolver.MilesAreNonNegative | postcode_distance_calculator.py:32-33 | a non-negative dataset distance gives a non-negative mile value |
| Resolver.ResolveSeesNormalFormsOnly | postcode_distance_calculator.py:21-24 | arguments with the same normal forms get the same answer |
| Resolver.ResolveIgnoresPadding | postcode_distance_calculator.py:21-24 | whitespace around either argument does not change the answer |
| Resolver.ResolveIgnoresCase | postcode_distance_calculator.py:21-24 | arguments that differ only in letter case get the same answer |
| Resolver.ResolveOnNormalForms | postcode_distance_calculator.py:20-24 | calling the resolver on already normalised codes gives the same answer as on the raw ones |
| Resolver.NormaliseKeepsUnpaddedLength | postcode_distance_calculator.py:21-22 | a code with whitespace at neither end keeps its length under `strip().upper()` |
| Resolver.LongCodeRejected | postcode_distance_calculator.py:21-24 | a code longer than nine characters once stripped never passes the check |
| Resolver.MalformedCodeRejected | postcode_distance_calculator.py:21-24 | `"not-a-code"` fails the check after normalisation |
| Resolver.MalformedCodeScenario | postcode_distance_calculator.py:20-25 | `("not-a-code", "EC1A 1BB")` and the reverse order both give the sentinel, whatever the dataset holds |
| Resolver.CaseAndPaddingScenario | postcode_distance_calculator.py:20-24 | `("  sw1a 1aa\t", "ec1a 1bb")` gets the same answer as `("SW1A 1AA", "EC1A 1BB")` |
| Frame.DistanceCell | postcode_distance_calculator.py:29-33 | a distance cell holds the text "Invalid postcode" exactly when the resolver answered with the sentinel; a mile value becomes a numeric cell holding exactly that value |
| Frame.PythonIndex | postcode_distance_calculator.py:52-53 | `columns[idx]` selects a column exactly when `-n <= idx < n`; a non-negative index is itself, and a negative index `idx` is position `n + idx`, counted from the end |
| Frame.RowRaises | postcode_distance_calculator.py:56-58 | `calculate_distance` raises exactly when both cells pass `pd.notna`, so the resolver is called, and one of them is a number, which has no `strip()` |
| Frame.RowDistance | postcode_distance_calculator.py:56-59 | a row's distance computation raises exactly when both postcode cells are present and one is a number; a missing cell gives the sentinel; two text cells get the cell of the resolver's answer for those two texts |
| Frame.DistanceColumn | postcode_distance_calculator.py:61 | the row-wise apply succeeds exactly when no row raises, and then yields one cell per row, in order, each that row's distance |
| Frame.IndexOf | postcode_distance_calculator.py:61 | the position of a column name is its first occurrence |
| Frame.WithColumn | postcode_distance_calculator.py:61 | assigning the column keeps the table well formed and the row count, keeps every other cell, reuses an existing column of that name or appends one, and puts each row's value in it |
| Frame.Process | postcode_distance_calculator.py:36-66 | the run returns a table exactly when the file loaded, both indices are selectable, and no row raises |
| Frame.ProcessKeepsTable | postcode_distance_calculator.py:56-62 | a successful run keeps the rows, their order and every other column, adds `distance_miles` once or reuses it, and fills it with each row's own distance cell |
| Frame.MissingCellGivesSentinel | postcode_distance_calculator.py:57-59 | a row with a missing postcode cell gets the sentinel whatever the resolver would answer, so the resolver is not called for it |
| Frame.NumericCellAbortsRun | postcode_distance_calculator.py:56-66 | one row with a number in a postcode cell, next to a present partner cell, makes the whole run return `None` |
| Frame.BadInputFails | postcode_distance_calculator.py:39-49 | a missing or unloadable file, or an index equal to or above the column count, makes the run return `None` |
| Frame.WithColumnTwice | postcode_distance_calculator.py:61 | assigning the same column twice equals assigning it once |
| Frame.ProcessTwiceChangesNothing | postcode_distance_calculator.py:47-62 | running the processor on its own output, with the same non-negative postcode columns, neither of them `distance_miles`, gives that output back: `distance_miles` is overwritten, not duplicated |
| Frame.ScanRows | postcode_distance_calculator.py:56-61 | the explicit row loop returns exactly what the row-wise apply returns: nothing when some row raises, otherwise each row's distance cell in row order |
| Frame.ColumnFromCells | postcode_distance_calculator.py:61 | a column holding each row's distance cell, in row order, is what the row-wise apply returns |
| Frame.RowDistanceSeesCellsOnly | postcode_distance_calculator.py:56-59 | a row's distance cell depends only on its two postcode cells |
| Frame.Run | postcode_distance_calculator.py:36-66 | the program's run, every row resolved over the postcode dataset, returns a table exactly when the file loaded, both indices are selectable and no row raises; that table has the distance column and as many rows as the input |
| Frame.RunResolvesEachRow | postcode_distance_calculator.py:56-61 | in a successful run over the dataset, a row with two text postcode cells gets `get_distance_between_postcodes` of those texts, as miles or as the sentinel text |
| Frame.ProcessTable | postcode_distance_calculator.py:36-66 | the loop-based processor returns exactly what `Process` returns, on every input |

## Left out

- The postcode dataset (`pgeocode.GeoDistance("gb")` and `query_postal_code`) is a parameter, `Resolver.Lookup`. `None` stands for the NaN the dataset returns for an unknown code.
- Resolver.Round2: computed on exact reals. Python multiplies and rounds binary floats, whose results can differ in the last places. The model keeps the factor 0.621371 and round-half-to-even.
- Resolver.KmToMiles: computed on exact reals like Resolver.Round2, so its bound of half a hundredth ignores binary-float error in the product.
- Text.Upper: upper-cases ASCII letters only and keeps every other character as it is. Python's `upper()` also maps other characters, some of them to ASCII or to longer strings (`ı` to `I`, `ß` to `SS`). Those mappings are not modelled.
- Resolver.Normalise: inherits the ASCII-only upper-casing of Text.Upper, so codes holding non-ASCII letters normalise differently from Python.
- Loading the file (`os.path.exists`, `pd.read_csv`) is the `Frame.Source` input: no file, a load that raises, or a loaded table. CSV parsing, type inference and NA detection are not modelled. A cell is text, a number, or missing.
- Frame.Process: requires a well-formed table, meaning rectangular with distinct column names, as `read_csv` builds it. Frames with repeated column names are not modelled.
- A table with no rows is modelled as a success with an empty distance column. What pandas' `apply` returns on an empty frame depends on the pandas version and is not modelled.
- `main()` is not modelled: directory creation, printing, interactive index input and `to_csv`. Logging is not modelled either.

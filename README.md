# SequencyConsistency in Dafny

SequencyConsistency finds gaps in sequentially numbered names. It takes a list of names, usually
a directory listing, and pulls a numeric token out of each name with a regular expression (by
default `(\d+)`, group 1). It reads every token as an integer and takes the largest value M. It
then reports the numbers 1..M that are absent, each left-padded with zeros to the width of
`str(M)`.

This project models that pipeline and proves its properties:

- `wrappers.dfy` (`Wrappers`): `Option` and `Result`.
- `str_order.dfy` (`StrOrder`): Python's `<` on strings, shown to be a strict total order.
  `sorted` on a set of strings (`Sorted`, `SortedBy` for `reverse=`) is proved to be the only
  strictly ascending listing of that set, and with `reverse=True` the only strictly descending
  one.
- `decimal.dfy` (`Decimal`): `str(n)`, `int(s)` on digit strings and `str.rjust(w, '0')`. It
  proves the round trips between them and that, on digit strings of equal length, string order
  is numeric order.
- `gaps.dfy` (`Gaps`): `__missing_number_sequence` and the sorted list cached as `missing`. This
  includes both `ValueError` paths and the diagnostic printed before the error is re-raised. The
  lemmas cover soundness, completeness, an independent characterisation of the result, width and
  numeric order.
- `extraction.dfy` (`Extraction`): the token set built by `SequencyConsistencyRegex`. The search
  is a parameter. The default `(\d+)` search is modelled as "leftmost maximal run of ASCII
  digits" and proved equal to that description.
- `consistency.dfy` (`Consistency`): the class `SequencyConsistency` with its three attributes.
  Construction either returns the object or the `ValueError` it raises. The module also has the
  `SequencyConsistencyRegex` constructor and `print_missing_sequencies`.
- `scenarios.dfy` (`Scenarios`): concrete listings worked through to their exact output.

### Tokens are compared as strings

The code pads every number of the range to `len(str(max))` and then removes the tokens as
strings. A token only cancels a number when it is spelled exactly like the padded number, so a
number can be reported although a token with its value is present.

- Names `img001.png`, `img002.png`, `img004.png` give tokens `001`, `002`, `004` and M = 4, so
  the width is 1. Only 3 is numerically absent. No token is spelled like any of `"1"`..`"4"`,
  so all of `["1", "2", "3", "4"]` are reported (`Scenarios.PaddedNamesScenario`).
- Names `f-1`, `f-2`, `f-10` give M = 10 and width 2. The tokens `1` and `2` do not cancel `01`
  and `02`, so `["01", ..., "09"]` is reported, `01` and `02` included
  (`Scenarios.UnpaddedNamesScenario`).
- When every token already has the width of `str(M)`, the string difference is the numeric one
  (`Gaps.UniformWidthMeansNumericGaps`).
- An empty token set makes `max()` raise `ValueError` inside the `try`. So the diagnostic is
  printed in that case as well as for unparsable tokens.

## Model

| member | source | states |
|---|---|---|
| `Decimal.Value` | SequencyConsistency.py:22 | `int` of a digit string is below 10^length |
| `Decimal.Str` | SequencyConsistency.py:27 | `str(n)` is a non-empty digit string; it starts with `0` only for n = 0, which is the single digit `"0"` |
| `Decimal.ValueOfStr` | SequencyConsistency.py:22-27 | `int(str(n)) == n` |
| `Decimal.StrOfValue` | SequencyConsistency.py:22-27 | `str(int(s)) == s` for a numeral without leading zeros |
| `Decimal.ValueLowerBound` | SequencyConsistency.py:27 | a numeral without a leading zero is worth at least 10^(length-1) |
| `Decimal.ValueConcat` | SequencyConsistency.py:22 | the value of a concatenation is value(a)·10^len(b) + value(b) |
| `Decimal.ValueOfZeros` | SequencyConsistency.py:27 | a run of `'0'` padding is worth 0 |
| `Decimal.PadLeft` | SequencyConsistency.py:27 | `rjust(width, '0')`: length max(len, width), the original as suffix, only zeros before it |
| `Decimal.Padded` | SequencyConsistency.py:27 | `str(n).rjust(w, '0')` is a non-empty digit string of at least w characters |
| `Decimal.PaddedValue` | SequencyConsistency.py:27 | zero-padding keeps the integer value: `int(str(n).rjust(w,'0')) == n` |
| `Decimal.StrLengthMonotone` | SequencyConsistency.py:27 | n <= m implies len(str(n)) <= len(str(m)) |
| `Decimal.PaddedWidth` | SequencyConsistency.py:27-28 | for n <= M the padded numeral of n has exactly len(str(M)) characters |
| `Decimal.EqualWidthOrder` | SequencyConsistency.py:18 | on digit strings of equal length, string `<` holds iff the values compare `<` |
| `Decimal.EqualWidthInjective` | SequencyConsistency.py:29 | digit strings of equal length and equal value are the same string |
| `StrOrder.Less` | SequencyConsistency.py:18 | Python's string `<`, the order `sorted` uses; read as first difference by `StrOrder.LessFirstDifference` |
| `StrOrder.LessFirstDifference` | SequencyConsistency.py:18 | a < b iff a is a proper prefix of b or, at the first position where they differ, a has the smaller code point |
| `StrOrder.LessIrreflexive` | SequencyConsistency.py:18 | string `<` is irreflexive |
| `StrOrder.LessTransitive` | SequencyConsistency.py:18 | string `<` is transitive |
| `StrOrder.LessTotal` | SequencyConsistency.py:18 | distinct strings are comparable |
| `StrOrder.LeastExists` | SequencyConsistency.py:18 | every non-empty set of strings has a least element |
| `StrOrder.Sorted` | SequencyConsistency.py:18 | `sorted(S)` is strictly ascending, holds exactly the members of S, and has length \|S\| |
| `StrOrder.SortedUnique` | SequencyConsistency.py:18 | two strictly ascending lists with the same members are equal, so `sorted` is determined by its set |
| `StrOrder.ConsAscending` | SequencyConsistency.py:18 | a string below the head of an ascending list can be put in front |
| `StrOrder.Reversed` | SequencyConsistency.py:33 | the reversed list has the same length and position k holds the element at len-1-k |
| `StrOrder.ReversedAscending` | SequencyConsistency.py:33 | a strictly ascending list read back to front is strictly descending with the same members |
| `StrOrder.ReversedDescending` | SequencyConsistency.py:33 | a strictly descending list read back to front is strictly ascending with the same members |
| `StrOrder.SortedDescendingUnique` | SequencyConsistency.py:33 | two strictly descending lists with the same members are equal, so `sorted(S, reverse=True)` is determined by S |
| `StrOrder.SortedBy` | SequencyConsistency.py:33 | `sorted(S, reverse=r)` holds exactly the members of S; ascending when r is false, strictly descending when true |
| `Gaps.MaxExists` | SequencyConsistency.py:22 | a non-empty set of numbers has a maximum |
| `Gaps.MaxOf` | SequencyConsistency.py:22 | `max` of a non-empty set is a member and bounds every member |
| `Gaps.Values` | SequencyConsistency.py:22 | the values are exactly the `int` of each token; non-empty when the tokens are |
| `Gaps.Top` | SequencyConsistency.py:22 | M is the value of some token and no token is worth more |
| `Gaps.MaxRange` | SequencyConsistency.py:21-25 | `ValueError` iff there is no token or one is not an integer, `EmptySequence` iff there is none, diagnostic printed; otherwise the value of some token that no token exceeds |
| `Gaps.Width` | SequencyConsistency.py:27-28 | the number of decimal digits of M: at least 1, M < 10^w, and 10^(w-1) <= M when M >= 1 |
| `Gaps.FullRange` | SequencyConsistency.py:27-28 | `str(num).rjust(len(str(M)), '0')` for num in 1..M; its members are given by `Gaps.FullRangeMembers` |
| `Gaps.FullRangeMembers` | SequencyConsistency.py:27-28 | s is in the padded range iff it is a digit string of width len(str(M)) with value in 1..M |
| `Gaps.MissingNumberSequence` | SequencyConsistency.py:20-29 | raises `ValueError` iff the tokens are empty or one is not an integer; the reason is `EmptySequence` iff they are empty; the diagnostic is printed in both cases |
| `Gaps.Missing` | SequencyConsistency.py:18 | the `missing` list fails exactly when the set does, with the same error, and otherwise lists exactly the missing set |
| `Gaps.MissingSound` | SequencyConsistency.py:22-29 | every reported string is the padded form of some 1 <= n <= M and is not a token |
| `Gaps.MissingComplete` | SequencyConsistency.py:27-29 | every padded 1 <= n <= M that is not a token is reported |
| `Gaps.MissingCoversRange` | SequencyConsistency.py:27-29 | result plus tokens covers the whole padded range 1..M |
| `Gaps.MissingCharacterization` | SequencyConsistency.py:20-29 | s is reported iff it is a digit string of width len(str(M)), with value in 1..M, that is not a token |
| `Gaps.MissingWidth` | SequencyConsistency.py:27-28 | every reported string is a digit string of width len(str(M)) with value in 1..M |
| `Gaps.WidthOfListed` | SequencyConsistency.py:18-28 | any listing of the missing set holds only numerals of width len(str(M)) |
| `Gaps.EqualWidthAscending` | SequencyConsistency.py:18 | a string-ascending list of equal-width numerals is numerically ascending and has no repeats |
| `Gaps.EqualWidthDescending` | SequencyConsistency.py:33 | a string-descending list of equal-width numerals is numerically descending and has no repeats |
| `Gaps.MissingNumericOrder` | SequencyConsistency.py:18-28 | `missing` has entries of width len(str(M)), in increasing integer order, none twice |
| `Gaps.MissingReverseOrder` | SequencyConsistency.py:31-33 | the `reverse=True` list has entries of width len(str(M)), in decreasing integer order, none twice |
| `Gaps.ShortTokenDoesNotCancel` | SequencyConsistency.py:27-29 | a token t shorter than the width, with value at least 1, whose padded spelling is not itself a token, leaves that padded number reported although t is present |
| `Gaps.UniformWidthMeansNumericGaps` | SequencyConsistency.py:27-29 | if every token has width len(str(M)), the result is exactly the padded numbers 1..M that no token's value equals |
| `Extraction.FirstDigit` | SequencyConsistency.py:41-43 | index of the first digit: none before it, a digit at it unless it is the end |
| `Extraction.DigitRunLength` | SequencyConsistency.py:41-43 | the greedy `\d+`: digits up to that length, a non-digit or the end after it |
| `Extraction.FirstDigitRun` | SequencyConsistency.py:41-43 | group 1 of `(\d+)`: nothing iff the name has no digit, otherwise a non-empty digit string |
| `Extraction.FirstDigitRunFound` | SequencyConsistency.py:41-43 | a found token is the leftmost maximal digit run of the name |
| `Extraction.RunAtUnique` | SequencyConsistency.py:41-43 | a name has at most one leftmost maximal digit run |
| `Extraction.FirstDigitRunSpec` | SequencyConsistency.py:41-43 | the default search returns u iff u is the leftmost maximal digit run of the name |
| `Extraction.FirstDigitRunOf` | SequencyConsistency.py:41-43 | a digit-free prefix, then a run, then a non-digit or the end, yield that run |
| `Extraction.TokensAppend` | SequencyConsistency.py:43-45 | one more name adds its token if it matches; a name without a match is dropped |
| `Extraction.Tokens` | SequencyConsistency.py:43-45 | t is a token iff the search returns t for some name; names without a match contribute nothing |
| `Extraction.DefaultTokens` | SequencyConsistency.py:41-45 | with `(\d+)`, t is a token iff it is the leftmost maximal digit run of some name |
| `Extraction.DefaultTokensAreNumerals` | SequencyConsistency.py:41-45 | with `(\d+)`, every token is a non-empty ASCII digit string |
| `Extraction.DefaultTokensEmpty` | SequencyConsistency.py:41-45 | with `(\d+)`, the token set is empty iff no name holds a digit |
| `Consistency.SearchOf` | SequencyConsistency.py:38-41 | the given search when there is one; otherwise `(\d+)` group 1, which finds a token iff the name has a digit, and only digit strings |
| `Consistency.SequencyConsistency.Blank` | SequencyConsistency.py:10-11 | a new object before `__init__` runs: empty `sequence` and `missing`, no `missing_sequencies` |
| `Consistency.SequencyConsistency.Valid` | SequencyConsistency.py:13-18 | the state after a normal `__init__`; implies both attributes hold the same missing set and `missing` is in increasing numeric order without repeats |
| `Consistency.DefaultPipelineFails` | SequencyConsistency.py:38-47 | with `(\d+)`, detection fails iff no name holds a digit, and then it fails as an empty-sequence `ValueError` |
| `Consistency.SequencyConsistency.New` | SequencyConsistency.py:11-18 | construction raises exactly the detector's `ValueError`; otherwise the object is fresh and holds the tokens, the missing set and the sorted `missing`, which agree as sets |
| `Consistency.SequencyConsistency.NewRegex` | SequencyConsistency.py:37-47 | builds the object from the extracted tokens, with `(\d+)` when no pattern is given; with the default it fails iff no name holds a digit |
| `Consistency.SequencyConsistency.PrintMissingSequencies` | SequencyConsistency.py:31-33 | None iff `missing_sequencies` is unset or empty; otherwise the missing set, ascending (equal to `missing`) or descending (`missing` reversed) |
| `Scenarios.NoDigitsRaises` | SequencyConsistency.py:15-25 | names `a`, `b`, `c` give no tokens, so construction raises the empty-sequence `ValueError` with the diagnostic |
| `Scenarios.PaddedNamesScenario` | SequencyConsistency.py:18-29 | `img001.png`, `img002.png`, `img004.png` yield `missing == ["1","2","3","4"]` |
| `Scenarios.UnpaddedNamesScenario` | SequencyConsistency.py:18-29 | `f-1`, `f-2`, `f-10` yield `missing == ["01",...,"09"]` |
| `Scenarios.UnpaddedNamesReverse` | SequencyConsistency.py:31-33 | the same names in reverse mode yield `["09",...,"01"]` |

## Left out

- Gaps.AllIntegers: Python's `int` also accepts a sign, surrounding whitespace, underscores between
  digits and non-ASCII decimal digits. The model reads only non-empty ASCII digit strings as
  integers and sends everything else down the `ValueError` path. The model's default search
  never produces such tokens; Python's can (see the next line).
- Extraction.FirstDigitRun: Python's `\d` on `str` patterns also matches non-ASCII decimal
  digits, which `int` accepts. For example, `img٣.png` gives the token `٣` and M = 3. The model
  matches only `'0'..'9'`.
- User-supplied patterns and group numbers are not modelled (`re.compile`, `search`, `group`,
  and the `IndexError` for a missing group). The extractor is a function parameter `Search`
  instead. So is `str()` of a group that did not take part in the match.
- Gaps.MissingNumberSequence: when several tokens cannot be parsed, Python raises on whichever one
  set iteration reaches first. The model's error records only the reason, not which token.
- `DirectoryConsistency` (lines 51-60) and its `os.listdir` call, the handling of
  `FileNotFoundError`/`NotADirectoryError`/`PermissionError` and the printing to standard error
  are not modelled: they are filesystem I/O. The partially built object that path leaves behind
  is only covered as a `PrintMissingSequencies` precondition alternative: `missing_sequencies`
  unset.
- `main` (lines 62-88) is not modelled: argument parsing, reading directories from standard
  input, and printing the header with `repr(os.path.abspath(...))` and the missing values.
- Standard-output printing of the diagnostic is not modelled as I/O. It is recorded as the
  `printed` field of the `ValueError`.
- The inheritance chain is not modelled. `SequencyConsistencyRegex.__init__` reads
  `self.sequence` rather than its parameter (line 43). The model takes the name list as a
  parameter.
- Python's list and set identity are not modelled; collections are values.

# average_squares in Dafny

A Dafny model of `squares.py`, a small utility with two pure functions:

- `average_of_squares(numbers, weights=None)` returns the weighted sum of
  squares Σ wᵢ·xᵢ². When no weights are given, every weight is 1. When
  weights are given, their length must equal the numbers' length, or the
  call fails.
- `convert_numbers(fragments)` splits every text fragment at whitespace and
  strips each piece. It collects the pieces of all fragments in order and
  parses each as a base-10 integer. One bad token fails the whole call.

The model is functional. Python's exceptions become values of a `Result`
datatype (`results.dfy`):
- `LengthMismatch` stands for the `AssertionError` of lines 22-24.
- `ParseError(token)` stands for the `ValueError` of `int()`, carrying the
  first token that `int()` rejects.

Modules:

| file | module | what it holds |
|---|---|---|
| `results.dfy` | `Results` | `Option`, `Error`, `Result` |
| `average.dfy` | `Average` | `average_of_squares`, the reference sums, their lemmas |
| `tokenize.dfy` | `Tokenize` | `str.split()` and `str.strip()`, with lemmas about splitting |
| `decimal.dfy` | `Decimal` | `int()` on one token, decimal rendering, round trip |
| `convert.dfy` | `Convert` | `convert_numbers`, its lemmas and the docstring examples |

Each operation is paired with an independent definition or an inverse:
- The Python `sum` over the zipped list is a left fold. It is proved equal
  to the head-first sums `SumOfSquares` and `WeightedSumOfSquares`.
- `Split` is paired with `Join`, and its pieces are proved to be exactly the
  string's non-whitespace characters.
- `Strip` is described by its cut points, and `StripIsUnique` proves that the
  description fixes the result.
- `ParseInt` is paired with the decimal rendering `ShowInt`, in both
  directions.
- `ConvertNumbers` is paired with `Render`, which writes integers out
  separated by spaces.

Numbers and weights are mathematical reals. This covers both the integer
inputs of the command line and the fractional weight of the docstring
(`[2, 4]` with `[1, 0.5]` gives `12.0`).

## Model

| member | source | states |
|---|---|---|
| `Average.AverageOfSquares` | squares.py:5-33 | Fails with `LengthMismatch` exactly when weights are supplied whose length differs from the numbers'. With no weights the result is the plain sum of squares Σ xᵢ·xᵢ. With weights of equal length it is Σ wᵢ·xᵢ·xᵢ over the pairs in index order. |
| `Average.EffectiveWeights` | squares.py:22-27 | Supplied weights of the right length are used unchanged. Absent weights become a list of 1s as long as the numbers. A supplied list of any other length is an error that records both lengths. |
| `Average.Squares` | squares.py:28-32 | The comprehension `[w * x * x for x, w in zip(numbers, weights)]`. Its contract is carried by `Average.SumFromIsWeightedSum`: summed left to right, the terms give the reference Σ wᵢ·xᵢ·xᵢ. |
| `Average.SumFrom` | squares.py:33 | Python's `sum`, a left fold from a running total. Its contract is carried by `Average.SumFromIsWeightedSum`: over the comprehension's terms it equals the total plus the reference weighted sum. |
| `Average.SumFromIsWeightedSum` | squares.py:28-33 | Adding the comprehension's terms w·x·x left to right from a running total, as `sum` does, gives that total plus the reference weighted sum. |
| `Average.UnitWeightsAreNoWeights` | squares.py:26-27 | Weights that are all 1 give the plain sum of squares. |
| `Average.AllOnesWeightsSameAsNone` | squares.py:22-27 | Passing all-ones weights of matching length gives the same result as passing no weights. |
| `Average.EmptyNumbersGiveZero` | squares.py:26-33 | An empty number list gives 0, whether the weights are absent or empty. |
| `Average.MismatchAlwaysFails` | squares.py:22-24 | Weights of a different length always fail, whatever the values. |
| `Average.ResultNonNegative` | squares.py:28-33 | The unweighted result, and any result whose weights are all non-negative, is at least 0. |
| `Average.IntegralInputsGiveIntegralResult` | squares.py:28-33 | Whole-number inputs with whole-number or absent weights give a whole-number result, as Python's `int` arithmetic does. |
| `Average.DocstringExamples` | squares.py:13-19 | `[1,2,4]` gives 21. `[2,4]` with `[1,0.5]` gives 12. `[1,2,4]` with `[1,0.5]` fails with lengths 2 and 3. |
| `Tokenize.Strip` | squares.py:49 | `strip()` returns a slice `s[i..j]` with only whitespace before `i` and after `j`, and the slice neither starts nor ends with whitespace. The result is empty exactly when the string is all whitespace. A string without whitespace is returned unchanged. |
| `Tokenize.StripIsUnique` | squares.py:49 | Any slice meeting that description is `Strip`'s result, so the description determines `strip()` completely. |
| `Tokenize.Split` | squares.py:49 | `s.split()` with no separator. Its contract is carried by lemmas. `Tokenize.SplitToken`: a token splits to itself. `Tokenize.SplitAtWhitespace`: a whitespace character separates the pieces before and after it. `Tokenize.SplitKeepsContent`: the pieces concatenate to the non-whitespace characters. `Tokenize.SplitYieldsTokens`: every piece is a token. |
| `Tokenize.SplitYieldsTokens` | squares.py:49 | Every piece `split()` produces is non-empty and contains no whitespace. |
| `Tokenize.SplitEmptyIffBlank` | squares.py:49 | A string yields no pieces exactly when it is empty or all whitespace. |
| `Tokenize.SplitKeepsContent` | squares.py:49 | The pieces, concatenated in order, are the string with its whitespace removed. No character is lost, invented or reordered. |
| `Tokenize.SplitAtWhitespace` | squares.py:49 | Splitting `a + c + b` at a whitespace character `c` gives the pieces of `a` followed by those of `b`. |
| `Tokenize.SplitAtWhitespaceRun` | squares.py:49 | A whitespace run of any non-zero length separates pieces as a single whitespace character does. |
| `Tokenize.SplitToken` | squares.py:49 | A non-empty string without whitespace splits to itself. |
| `Tokenize.SplitJoin` | squares.py:49 | Splitting tokens joined by single spaces gives back the tokens. |
| `Decimal.ParseInt` | squares.py:51 | `int()` succeeds exactly on `[+\|-]digit+`. The value is the number the digits denote, most significant first: unchanged under `+` and negated under `-`. A leading `-` never gives a positive value. No sign or `+` never gives a negative one. |
| `Decimal.SignLaws` | squares.py:51 | `int("+" + u) == int(u)` and `int("-" + u) == -int(u)` for every unsigned text `u`, with each side failing exactly when the other does. |
| `Decimal.SignExamples` | squares.py:51 | `int("+5") == 5`, `int("-0") == 0` and `int("-5") == -5`. |
| `Decimal.ParseShowInt` | squares.py:51 | Parsing the decimal rendering of any integer gives that integer back. |
| `Decimal.ShowParseInt` | squares.py:51 | Every text in the form `str()` writes parses, and rendering the parsed value gives the same text back. That form is digits without a leading zero, with a `-` in front only for a non-zero value. |
| `Decimal.ZeroPaddingIgnored` | squares.py:51 | A leading zero after the optional sign does not change the parsed value, as with Python's `int("007") == 7`. |
| `Convert.Pieces` | squares.py:49 | Stripping the pieces of a split changes nothing, so the list comprehension of line 49 equals `split()`. |
| `Convert.ParseAll` | squares.py:51 | Succeeds exactly when every token is an integer literal. Then there is one value per token, in order, each the token's parse. Otherwise the error names the first bad token. |
| `Convert.ConvertNumbers` | squares.py:36-51 | Succeeds exactly when every collected token is an integer literal. The output has one value per token, in fragment and token order, and its length is the total token count. A failure is always a `ParseError` naming the first token, across all fragments, that is not an integer literal. |
| `Convert.Tokens` | squares.py:45-49 | `all_numbers` after the loop. Its contract is carried by lemmas. `Convert.TokensOfOne`: one fragment gives its `split()` pieces. `Convert.TokensAppend`: the tokens of `a + b` are those of `a` followed by those of `b`. `Convert.TokensAreTokens`: every token is non-empty and has no whitespace. |
| `Convert.TokensOfOne` | squares.py:45-49 | A single fragment contributes exactly its `split()` pieces. |
| `Convert.TokensAreTokens` | squares.py:46-51 | Every token handed to `int()` is non-empty and has no whitespace. |
| `Convert.TokensAppend` | squares.py:45-49 | The tokens of `a + b` are the tokens of `a` followed by those of `b`. |
| `Convert.ParseAllAppend` | squares.py:51 | Parsing `s + t` fails with the first failure, in order. Otherwise it gives the two value lists concatenated. |
| `Convert.ConvertAppend` | squares.py:46-51 | `convert(a + b)` fails as the first failing half does. Otherwise it is `convert(a) + convert(b)`. |
| `Convert.ConvertEmpty` | squares.py:45-51 | `convert_numbers([])` gives the empty list. |
| `Convert.ConvertSplitFragment` | squares.py:46-49 | Cutting a fragment at a whitespace character into two fragments does not change the result. |
| `Convert.BlankFragmentContributesNothing` | squares.py:46-49 | An empty or all-whitespace fragment contributes nothing, wherever it stands. |
| `Convert.ConvertRender` | squares.py:36-51 | Converting the space-separated decimal rendering of any integer list gives that list back. |
| `Convert.DocstringExample` | squares.py:41-42 | `["4", " 8 ", "15 16", " 23    42 "]` converts to `[4, 8, 15, 16, 23, 42]`. |
| `Convert.BadTokenExample` | squares.py:51 | `["abc"]` fails with `ParseError("abc")`. |
| `Convert.SplitFragmentExample` | squares.py:46-49 | `["4 8"]` converts to the same result as `["4", "8"]`. |

## Left out

- The command-line block (squares.py:54-68) is argument parsing and a `print`, so it is not modelled. As written, it passes its defaults through `convert_numbers` a second time. The defaults are already integer lists there, so calling the script without flags would fail on `int.split`. It would not print 21.
- Floating point: numbers and weights are exact reals. IEEE rounding and Python's promotion of `int` to `float` are not modelled.
- `int()` beyond `[+|-]digits` is not modelled: underscores between digits (`1_000`), non-ASCII decimal digits, and surrounding whitespace. Tokens never carry whitespace, and the other two forms are rejected by the model.
- Whitespace is the ASCII set that Python's `str.isspace` accepts: tab, line feed, vertical tab, form feed, carriage return, 0x1C-0x1F and space. Non-ASCII whitespace (for example U+00A0 and U+3000) is treated as an ordinary character.
- Decimal.ParseInt: does not model the limit on the length of integer strings in CPython 3.11 and later (`sys.get_int_max_str_digits`, 4300 digits by default, also backported to security releases of 3.7-3.10). With that limit in force, `int()` raises `ValueError` on a longer literal, which the model accepts. The limit depends on the interpreter version and a runtime setting.
- Decimal.ParseShowInt: holds for integers of any size. Under the same CPython limit, `str()` of an integer with more than 4300 digits raises instead of rendering.
- Convert.ConvertRender: holds for integers of any size, so it too goes beyond what CPython 3.11 and later allow by default.
- Exception types and messages are reduced to the two `Error` variants.
- Running Python with `-O` removes the `assert` on line 23, and `zip` then silently truncates to the shorter list. The model follows the code with assertions enabled.

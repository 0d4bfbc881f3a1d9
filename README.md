# vzlafx `usd.py` — a Dafny model of the text-to-rate pipeline

`usd.py` prints today's US-dollar rate in bolívars from three sources. These
are the central bank's page (`bcv`), a rate widget's script (`dolartoday`)
and an Instagram profile (`enparalelovzla`). It then prints the mean of the
rates that are above zero. This project models the part of that script that
turns text into numbers:

- `parse_rate` on a string (usd.py:15-20). Every `.` is deleted and every `,`
  becomes `.`. The result is read by Python's `Decimal`. A failed read is
  caught and gives `None`.
- The scrape in `fetch_ig_rate` (usd.py:25-39). The page text is stripped and
  searched for the leftmost match of
  `(2020) (..:..) (AM|PM) (PROMEDI(C|O) Bs. )([0-9.,]*)`. Whatever follows the
  first `"Bs."` of the match is stripped and handed to `parse_rate`. When
  there is no match, or no `"Bs."`, the result is `D()`, the zero sentinel.
- The `'{'` cut in `fetch_dolartoday_rate` (usd.py:55-56). The stripped
  script text is cut at its first brace. Nothing catches the `ValueError`
  that `index` raises when there is no brace.
- The mean on line 74. Only the rates strictly above zero are averaged.

Modules, one per concern:

| file | module | models |
|---|---|---|
| outcomes.dfy | `Outcomes` | Python's `None` (`Option`) and exceptions that escape (`Result`, `PyError`) |
| text.dfy | `Text` | `str.strip()` and `str.index()` |
| rate_parsing.dfy | `RateParsing` | `Decimal` values and `parse_rate`'s string branch |
| profile_scrape.dfy | `ProfileScrape` | the regex search and the slicing in `fetch_ig_rate` |
| widget_json.dfy | `WidgetJson` | the text handed to `json.loads` |
| report.dfy | `Report` | the mean over the positive rates |

A `Decimal` is modelled as Python's string constructor builds it. Its
coefficient is the integer all the digits spell. Its scale is the number of
digits after the point. So `"6,43"` reads as `Decimal(643, 2)`, and trailing
zeros are kept. `Value` gives the number it stands for.

`ParseRate` states its result without reference to its body. It gives a
value exactly when the text holds a digit and at most one comma. That value
is (all digits) scaled by (the number of digits after the comma). Its
partners are a writer (`Render`, with `RenderRoundTrip`) and the fact that
dots never matter (`DotsIgnored`). `FetchIgRate` is stated in terms of the
leftmost position where the pattern's fixed head matches. It names the
maximal `[0-9.,]` run after it. `BsOffset` proves that the first `"Bs."` of a
match is always at offset 23, and that it is there exactly when the wildcard
after `Bs` is a literal `.`.

Where usd.py's own comments, or the rules one might expect of a rate
scraper, differ from what its code does, the model follows the code:

- Every `.` is deleted. The comment on usd.py:16 says that only the last
  two digits after the last `.` are kept, so one might read `"1.234.56"` as
  1234.56. Line 17 gives 123456 (`EveryDotDroppedExample`).
- The string branch does not round to two decimals. `"1,234"` keeps three
  (`ScaleKeptExample`).
- `fetch_ig_rate` returns `None`, not zero, when the run is not a number
  (`NonNumericRunGivesNone`).
- `parse_rate` catches a failed read and returns `None` (usd.py:15-20).
  Among the fetch functions only `fetch_ig_rate` has a `try`, and it covers
  only the search and slicing (usd.py:31-36). No fetch function catches a
  failure of `urlopen` or of decoding (usd.py:24-25, 44, 54). In
  `fetch_dolartoday_rate` a missing `{` raises, and nothing catches it
  (`JsonText`, `NoBraceExample`).
- There is no fallback from the central bank to a profile page. There are no
  baseline differences and no max/min selection.
- The mean has no guard. With no positive rate it raises `StatisticsError`
  (`AllFailedExample`). A `None` rate makes `v > 0` raise `TypeError`
  (`UnreadRateExample`).

## Model

| member | source | states |
|---|---|---|
| `Text.Strip` | usd.py:25 | the result is a slice of the input, everything cut away is whitespace, and the result neither starts nor ends with whitespace |
| `Text.IndexOf` | usd.py:34 | the result is an occurrence with no earlier one; `None` (the `ValueError`) exactly when the pattern occurs nowhere |
| `RateParsing.Delete` | usd.py:17 | `replace('.', '')` leaves no `.`, shortens the text by the number of dots, and keeps every other character in order: the one at `k` moves left by the number of dots before it |
| `RateParsing.Replace` | usd.py:17 | `replace(',', '.')` keeps the length and changes exactly the commas, character by character |
| `RateParsing.Clean` | usd.py:17 | the cleaned text holds only digits and points, keeps every digit, has as many points as the input had commas, and keeps the digits after the first comma |
| `RateParsing.DecimalLiteral` | usd.py:18-20 | `Decimal(t)` over digits and points succeeds exactly when `t` has a digit and at most one point, and reads all digits with the fraction's length as scale |
| `RateParsing.ParseRate` | usd.py:15-20 | never raises; gives a value exactly when the text has a digit and at most one comma, and that value is all the digits scaled by the digits after the comma |
| `RateParsing.RenderRoundTrip` | usd.py:17-18 | reading back a rate written with a decimal comma gives the same coefficient and scale |
| `RateParsing.DotsIgnored` | usd.py:17 | inserting a `.` anywhere never changes the result |
| `RateParsing.CommaDecimalExample` | usd.py:17-18 | `"6,43"` reads as 6.43 |
| `RateParsing.ThousandsDotExample` | usd.py:17-18 | `"227.123,45"` reads as 227123.45 |
| `RateParsing.EveryDotDroppedExample` | usd.py:16-18 | `"1.234.56"` reads as 123456 |
| `RateParsing.ScaleKeptExample` | usd.py:17-18 | `"1,234"` reads as 1.234, three decimals |
| `RateParsing.NoDigitExamples` | usd.py:15-20 | `""` and `","` give `None` |
| `RateParsing.TwoCommasExample` | usd.py:15-20 | `"1,2,3"` gives `None` |
| `ProfileScrape.RunEnd` | usd.py:29 | the greedy `([0-9.,]*)` group: everything up to the end is in the class and the next character is not |
| `ProfileScrape.Search` | usd.py:29-31 | `re.search` gives the leftmost position where the pattern's head matches, and `None` exactly when it matches nowhere |
| `ProfileScrape.MatchAt` | usd.py:32 | `m.group(0)` is the 27 characters of the page where the head matched, followed by the whole run |
| `ProfileScrape.BsOffset` | usd.py:32-34 | in a match, `index('Bs.')` is 23 when the character after `Bs` is `.`, and fails otherwise |
| `ProfileScrape.RateFromMatch` | usd.py:32-39 | after a match the result is `parse_rate` of the run when `Bs` is followed by `.`, and `D()` otherwise |
| `ProfileScrape.RateInPage` | usd.py:29-39 | `D()` when the pattern matches nowhere; otherwise as `RateFromMatch` on the leftmost match |
| `ProfileScrape.FetchIgRate` | usd.py:25-39 | the same, on the stripped page text |
| `ProfileScrape.NonNumericRunGivesNone` | usd.py:35-36 | an empty run or one with two commas gives `None`, not the zero sentinel |
| `ProfileScrape.PostExample` | usd.py:29-36 | a post `2020 09:00 AM PROMEDIO Bs. 6,43` gives 6.43 |
| `ProfileScrape.PostWithoutDotExample` | usd.py:32-39 | `Bs:` in place of `Bs.` still matches but gives `D()` |
| `ProfileScrape.LoginPageExample` | usd.py:31-39 | a page without the pattern gives `D()` |
| `WidgetJson.FirstBrace` | usd.py:56 | `index('{')` finds the first brace and fails only when there is none |
| `WidgetJson.JsonText` | usd.py:55-56 | the JSON text is a non-empty suffix of the stripped snippet that starts at its first `{`; a `ValueError` escapes exactly when there is no `{` |
| `WidgetJson.JsonTextFrom` | usd.py:55-56 | given the position of the first brace, the JSON text is the snippet from there on |
| `WidgetJson.ScriptExample` | usd.py:55-56 | `dt = {"USD": {}}` hands `{"USD": {}}` to the parser |
| `WidgetJson.NoBraceExample` | usd.py:55-56 | text without a brace raises `ValueError` |
| `Report.Mean` | usd.py:74 | `statistics.mean` raises exactly on an empty list; otherwise its result times the length is the sum, and it lies between the least and the greatest element |
| `Report.PositiveRates` | usd.py:74 | the comprehension raises `TypeError` exactly when a rate is `None`; otherwise it is as long as the number of rates above zero, holds each of their values once and in order (the `i`th rate at its rank among them), and every place belongs to one of them |
| `Report.PositiveUpTo` | usd.py:74 | the comprehension over the first `n` rates compares them with 0 from left to right and raises `TypeError` exactly when one of them is `None` |
| `Report.PositiveUpToLists` | usd.py:74 | over every prefix of the rates, the filtered list holds each positive rate once, in order, and adds up to their total |
| `Report.MeanOfPositive` | usd.py:74 | defined exactly when every rate was read and one is positive; then it is the total of the positive rates over their number, is positive, and lies between the least and greatest of them; otherwise `TypeError` or `StatisticsError` |
| `Report.ZeroRateIgnored` | usd.py:74 | a zero rate anywhere in the list leaves the outcome unchanged |
| `Report.RepeatedRateExample` | usd.py:74 | rates 10, 10 and 40 have mean 20: a repeated rate counts each time |
| `Report.SentinelExample` | usd.py:65-74 | rates 10.00, 20.00 and `D()` have mean 15 |
| `Report.AllFailedExample` | usd.py:65-74 | three zero sentinels raise `StatisticsError` |
| `Report.UnreadRateExample` | usd.py:65-74 | a `None` rate raises `TypeError` |

## Left out

- Network access (`urlopen`, usd.py:2, 24, 44, 54) and UTF-8 decoding (usd.py:25) are I/O. The page is a parameter, already decoded, and fetch failures are not modelled.
- BeautifulSoup's element lookups (usd.py:44-45, 54-55) are a foreign library. So `fetch_bcv_rate` is not a member of its own: after the lookup it is `parse_rate` of the stripped element text.
- `json.loads` and the `["USD"]["dolartoday"]` lookup (usd.py:56-57) are a foreign library. The model stops at the text handed to the parser.
- The float branch of `parse_rate` (usd.py:12-13) is floating-point behaviour. A value that is neither `str` nor `float` (an `int` from the JSON) is not modelled; its `replace` raises `AttributeError`, which is caught and gives `None`.
- ParseRate (`RateParsing.ParseRate`): only text over `[0-9.,]` is modelled. That is all the profile regex lets through. Signs, exponents, whitespace, `NaN`/`Infinity` and underscores in `Decimal`'s grammar are not modelled.
- DecimalLiteral (`RateParsing.DecimalLiteral`): only text over digits and `.` is modelled. That is what the cleaning step leaves of such input.
- Mean (`Report.Mean`): the mean is the exact quotient of sum and count. The rounding of `statistics.mean` to the decimal context's precision is not modelled.
- Timestamps, headers, number formatting and every `print` (usd.py:20, 38, 61-63, 71-72, 74) are presentation. One consequence is not modelled: formatting a `None` rate with `,.2f` on line 72 raises before line 74 is reached.
- The `rates` dictionary (usd.py:65-69) is a sequence in its insertion order. It is built once and never changed.

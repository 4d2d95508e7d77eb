# hh.ru vacancy scraper — a Dafny model of its deterministic core

The scraper (`homework.py`) fetches one search-results page of hh.ru, follows
every listing to its detail page, pulls out the title, link, salary, company
and city, keeps the listings whose description mentions one of the given
keywords, stores them in a dictionary keyed by title, and finally keeps only
the entries whose salary is printed in the requested currency.

This project models everything in that pipeline that is not HTTP, HTML
parsing or output:

- `Text` — the Python string operations the code relies on: `lower()`
  (ASCII letters only), the substring test `p in s` (a left-to-right search,
  proved equal to "some occurrence exists"), `replace('\xa0', ' ')`, `s[:-1]`,
  `str(n)` (proved to spell the number's decimal value) and `sep.join(xs)`.
  The code itself only uses `''.join`; the model also joins with `'&'` to
  state the expected layout of the address.
- `Records` — the lookups for one listing (each tree search becomes an
  optional `Tag` whose only content is its `.text`), the extracted listing,
  the dictionary record, and the two exceptions the model distinguishes.
- `Fields` — `solve_attr_error`, `get_salary` (gross before net, non-breaking
  spaces normalised), `get_company_name` and `get_city` (a primary lookup, a
  fallback lookup, failure when both are missing; the city is cut before its
  first comma), and `get_all_values` after the lookups.
- `Keywords` — `check_key_word_in_text`: true exactly when some keyword,
  lower-cased, occurs in the lower-cased description.
- `Aggregation` — `count_dict_keys_repeats`, `check_vacancy_name_repeat`, one
  step of the `get_vacancies_data` loop and the loop itself (a method).
- `UrlBuilder` — `build_url`, with its result proved equal to the host
  followed by the query parameters joined by `&` whenever at least one
  region code is given; with none, the address carries an extra empty
  parameter (`&&currency_code=`).
- `CurrencyFilter` — `currency_check` (a method with a loop over the
  dictionary).

What the repeated-title guard actually does: the comments at
homework.py:183-188 say that `count_dict_keys_repeats` and
`check_vacancy_name_repeat` prevent duplicate vacancies, and the suffix
branch at homework.py:266-268 would store a repeat under `title_2`. A dictionary has at most one key
equal to a title, so the count is 0 or 1, `check_vacancy_name_repeat` is
never true, the suffixed-key branch never runs, and a repeated title simply
overwrites the earlier entry. The model follows the code: the last passing
listing with a given title wins, and no suffixed key is ever created
(`Aggregation.CheckVacancyNameRepeat`, `Aggregation.InsertListing`,
`Aggregation.CollectLastWins`).

Other points where the model makes the code's behaviour explicit:

- With an empty region list, `''[:-1]` is `''`, so the area part is a lone
  `&` and the address contains `&&currency_code=`.
- A currency code outside `{RUR, USD, EUR}` leaves `data_dict` unassigned, so
  `currency_check` raises `UnboundLocalError`; the model returns that error
  rather than forbidding the input.
- Any missing company or city node makes the whole pass raise
  `AttributeError`, even for a listing the keyword filter would later drop,
  because extraction happens before filtering.

## Model

| member | source | states |
|---|---|---|
| `Text.Lower` | homework.py:201 | `str.lower()` keeps the length and lower-cases each ASCII letter in place, leaving every other character unchanged |
| `Text.LowerIdempotent` | homework.py:201 | lower-casing an already lower-cased string changes nothing |
| `Text.ContainsIsSubstring` | homework.py:200-205 | Python's `p in s` search returns true exactly when `p` occurs in `s` at some index |
| `Text.ReplaceNbsp` | homework.py:106-108 | `replace('\xa0', ' ')` keeps the length, turns each non-breaking space into a space, keeps every other character, and leaves no non-breaking space |
| `Text.DropLast` | homework.py:280 | `s[:-1]` is `s` without its last character, and the empty string stays empty |
| `Text.IntToString` | homework.py:280-282 | `str(n)` is non-empty and all digits except a leading minus sign present exactly for negative `n`; the digits denote the absolute value of `n` in decimal, with no leading zero |
| `Text.JoinAppend` | homework.py:280 | joining two non-empty lists with a separator is the two joins with one separator between them |
| `Fields.SolveAttrError` | homework.py:51-55 | absent node gives absent text; a present node gives its text |
| `Fields.GetSalary` | homework.py:97-110 | present exactly when the gross or the net node exists; the gross text wins over the net text; the result is the chosen text with non-breaking spaces normalised and contains none |
| `Fields.GetCompanyName` | homework.py:112-126 | fails with AttributeError exactly when both lookups are missing; otherwise the primary text, or the fallback text when the primary is missing, with non-breaking spaces normalised |
| `Fields.IndexOf` | homework.py:139 | `str.index(',')` is the first position of the comma |
| `Fields.TruncateAtComma` | homework.py:138-139 | the result is a comma-free prefix of the city followed in it by a comma or by its end |
| `Fields.BeforeFirstCommaUnique` | homework.py:138-139 | only one string is the part of a city before its first comma |
| `Fields.TruncateAtCommaIdempotent` | homework.py:138-139 | cutting at the first comma twice is cutting once |
| `Fields.GetCity` | homework.py:128-140 | fails with AttributeError exactly when both lookups are missing; the fallback is read only when the primary is missing; the result is the part of the found text before its first comma |
| `Fields.GetCityDropsDistrict` | homework.py:128-140 | `"Moscow, Central District"` gives `"Moscow"`; `"Moscow"` is kept unchanged |
| `Fields.GetAllValues` | homework.py:148-159 | fails exactly when the company or the city cannot be found; otherwise carries the link, title and description unchanged and the salary, company and city as extracted |
| `Keywords.MatchCount` | homework.py:201-202 | the sum counts at most one per keyword |
| `Keywords.MatchCountPositive` | homework.py:201-205 | the sum is at least one exactly when some lower-cased keyword occurs in the lower-cased text |
| `Keywords.CheckKeyWordInText` | homework.py:200-205 | true exactly when some keyword, lower-cased, is a substring of the lower-cased text |
| `Keywords.KeyWordEdgeCases` | homework.py:200-205 | an empty keyword list never passes; an empty keyword always passes |
| `Keywords.CheckKeyWordIgnoresTextCase` | homework.py:201 | lower-casing the description first does not change the verdict |
| `Keywords.CheckKeyWordIgnoresKeyWordCase` | homework.py:201 | lower-casing the keywords first does not change the verdict |
| `Keywords.DjangoDescriptionPasses` | homework.py:200-205 | "We use Django daily" passes the keywords Django and Flask |
| `Keywords.JavaDescriptionFails` | homework.py:200-205 | "We use Java" does not pass the keywords Django and Flask |
| `Aggregation.CountDictKeysRepeats` | homework.py:207-208 | the count of keys equal to a title is 1 when the title is a key and 0 otherwise |
| `Aggregation.CheckVacancyNameRepeat` | homework.py:210-219 | the repeat check is always false |
| `Aggregation.InsertListing` | homework.py:263-270 | a failing listing leaves the dictionary unchanged; a passing one is stored under its title, overwriting, with no other key added or changed |
| `Aggregation.CollectKeys` | homework.py:254-271 | after the loop the keys are exactly the titles of the listings that pass the keyword filter |
| `Aggregation.CollectLastWins` | homework.py:254-271 | a title maps to the entry of the last passing listing with that title |
| `Aggregation.CollectValues` | homework.py:254-271 | every key's value is the entry of the last passing listing with that title |
| `Aggregation.RepeatedTitleOverwrites` | homework.py:263-270 | two passing listings with the same title leave a single key holding the second |
| `Aggregation.ExtractAllSpec` | homework.py:258-260 | extracting all listings fails, with AttributeError, exactly when one of them fails, and otherwise yields each listing's values in order |
| `Aggregation.GetVacanciesData` | homework.py:254-271 | the pass fails, with AttributeError, exactly when some listing lacks a mandatory node; otherwise the result is the fold of the step over the extracted listings |
| `UrlBuilder.BuildUrl` | homework.py:277-289 | the address starts with the fixed search endpoint |
| `UrlBuilder.AreaChunksJoin` | homework.py:280 | the `area=n&` chunks without their last character are the `area=n` parameters joined by `&` |
| `UrlBuilder.BuildUrlIsQuery` | homework.py:277-289 | with at least one region the address is the endpoint followed by text, each area, currency code, page and (when set) the salary flag, joined by `&` in that order |
| `UrlBuilder.TailJoin` | homework.py:281-286 | the currency, page and salary parts are `&` followed by those parameters joined by `&` |
| `UrlBuilder.BuildUrlWithoutAreas` | homework.py:280 | with no region the area part is a lone `&`, an empty parameter between text and currency code |
| `UrlBuilder.SalaryFlagIffSet` | homework.py:283-289 | the address ends with `&only_with_salary=true` exactly when the flag is set |
| `CurrencyFilter.CurrencyCheck` | homework.py:291-300 | raises UnboundLocalError exactly for a code outside RUR, USD, EUR; otherwise a sub-dictionary with values unchanged that keeps a key exactly when its salary is present and contains the code's sign |

## Left out

- `get_headers` and `get_response` (homework.py:22-28): HTTP requests, header spoofing and HTML parsing are foreign libraries and I/O; their results enter the model as the already-looked-up `RawListing` values.
- The tree searches themselves (`find`, `find_all`, `.text`, `['href']`), including `get_vacancy_link`, `get_vacancy_name`, `get_vacancy_text` and the search in `solve_attr_error_check`: they are calls into BeautifulSoup. The link, title and description are taken as given strings, so the TypeError a missing link anchor raises and the AttributeError a missing title or description raises are not modelled; every other search is an optional `Tag`.
- `show_loop_description`, `print_result`, `write_json` and the diagnostic `print` calls in `get_company_name` and `get_city`: console and file output.
- `main`'s `while True` retry on AttributeError (homework.py:305-319) and the `__main__` block: an unbounded, exception-driven loop around network calls. The model has one pass (`Aggregation.GetVacanciesData`) and the currency filter that runs after a successful pass (`CurrencyFilter.CurrencyCheck`), not their composition.
- Python's full Unicode `str.lower()`: only ASCII letters are lowered.
- Dictionary insertion order: the model's dictionaries are unordered maps; the code does not depend on the order and only the JSON output would show it.
- URL encoding: the code performs none, and the model concatenates raw text exactly as the code does.
- `UrlBuilder.BuildUrl`: its own contract states only the endpoint prefix; the full layout of the address is stated by `UrlBuilder.BuildUrlIsQuery` and `UrlBuilder.BuildUrlWithoutAreas`.

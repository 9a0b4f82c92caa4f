# Country directory: renderer and news client

This project models two parts of a country-directory program:

- **The renderer.** It turns an aggregated record into text: the country, its weather, its time and the latest news.
- **The news client.** It builds the news-provider endpoint and decides what a response yields.

Modules:

- `Text` (text.dfy): Python's `str(int)` and its parser, `sep.join(parts)`, and `s.replace(c, "")` for one character.
- `Models` (models.dfy): the aggregation record (`LocationInfoDTO`) and its parts.
- `Formatting` (formatting.dfy): the pure cell formatters, each with the properties that pin it down:
  - languages;
  - population with `.` grouping;
  - currency rates rounded half-up to two decimals;
  - the `UTC+` offset.
- `Rendering` (rendering.dfy): the tables as the rows they hold, and the `Renderer` class.
  - `Render` builds the report by successive appends, as the original does.
  - `FormatNews` builds the news text in a loop whose invariant is "heading plus the blocks of the items so far".
- `News` (news.dfy): the news client:
  - the base URL and the endpoint `get_news` requests;
  - the `apikey` header;
  - `_request`'s status decision.

  Reading an endpoint back (`ParseNewsEndpoint`) shows that the unescaped country round-trips exactly when it holds no `&`.

A table is the value the renderer configures: column names, rows in insertion order, width limits and alignment. Drawing it belongs to the table library, so it is the function parameter `tableText`. The local-time text is the parameter `localTime`, applied to `dt + timezone`. The HTTP exchange is the parameter `transport`. The API key is a parameter.

Three behaviours of the code that the model keeps as written:

- After the `"\nНовости\n"` heading, each news table is followed by `"\n"` (src/renderer.py:122). No newline precedes it.
- The weather table's "Видимость" and "Скорость ветра" rows print `location.subregion` and `location.area` (src/renderer.py:51-52). No weather field feeds them (`WeatherRows`, `WeatherRowsSources`).
- A rate written `12.345` rounds to `12.35` only as an exact decimal, which is what the model uses. See `## Left out`.

## Model

| member | source | states |
|---|---|---|
| Formatting.FormatLanguages | src/renderer.py:76-79 | the languages text is empty exactly when the language list is empty |
| Formatting.LanguageTexts | src/renderer.py:77-78 | one `name (native_name)` text per language, position by position |
| Formatting.FormatLanguagesSingle | src/renderer.py:77 | one language prints as its name, a space and its native name in parentheses |
| Formatting.FormatLanguagesAppend | src/renderer.py:76-79 | the text of a concatenated list is the two texts joined by `", "`, so input order is kept |
| Formatting.FormatLanguagesExample | src/renderer.py:77 | `[Russian/Русский]` prints as `Russian (Русский)` |
| Formatting.GroupThousandsDots | src/renderer.py:89 | grouping a digit string puts a `.` exactly every fourth place from the right, never at the ends |
| Formatting.GroupThousandsWithout | src/renderer.py:89 | deleting the dots from a grouped digit string gives the digits back |
| Formatting.FormatPopulation | src/renderer.py:89 | `{:,}` grouping with `,` replaced by `.`; `PopulationDigits`, `PopulationGroups` and `PopulationSmall` state its meaning |
| Formatting.PopulationDigits | src/renderer.py:89 | deleting every `.` from the population text gives `str(population)` |
| Formatting.PopulationGroups | src/renderer.py:89 | the first group has 1 to 3 digits and every later group exactly 3 |
| Formatting.PopulationSmall | src/renderer.py:89 | the text holds a `.` exactly when the population is at least 1000 |
| Formatting.PopulationExampleGrouped | src/renderer.py:89 | 1234567 prints as `1.234.567` |
| Formatting.PopulationExampleMillion | src/renderer.py:89 | 1000000 prints as `1.000.000` and 0 as `0` |
| Formatting.RoundCents | src/renderer.py:99 | the rate quantized to hundredths with ROUND_HALF_UP, as a signed cent count; `RoundCentsSpec` and `RoundCentsSign` state its meaning |
| Formatting.AmountText | src/renderer.py:99 | the quantized amount as `Decimal` prints it; `AmountTextMeaning` states its meaning |
| Formatting.CurrencyText | src/renderer.py:99 | one `"{code} = {amount} руб."` text; `FormatCurrencyRatesSingle` and the currency examples state it |
| Formatting.HalfUp | src/renderer.py:99 | the half-up quotient is within half a unit of the exact quotient, and a tie goes up |
| Formatting.RoundCentsExact | src/renderer.py:99 | a rate with at most two decimals is kept exactly |
| Formatting.RoundCentsInexact | src/renderer.py:99 | a rate with more decimals is within half a cent and a tie goes away from zero |
| Formatting.RoundCentsSpec | src/renderer.py:99 | for every rate: the cents differ from the rate by at most 0.005, a tie rounds away from zero, and the sign is kept |
| Formatting.RoundCentsSign | src/renderer.py:99 | rounding never changes the sign of the rate |
| Formatting.CentsTextMeaning | src/renderer.py:99 | a cent amount prints with one `.`, exactly two digits after it, and digits that spell the amount |
| Formatting.SignedCentsTextMeaning | src/renderer.py:99 | a cent amount printed with a '-' exactly when negative has two fractional digits and reads back as the signed amount |
| Formatting.AmountTextMeaning | src/renderer.py:99 | the amount has two fractional digits, a `-` exactly for a negative rate, and reads as the rounded cents |
| Formatting.CurrencyTexts | src/renderer.py:98-101 | one `"{code} = {amount} руб."` text per entry, in the entries' order |
| Formatting.FormatCurrencyRates | src/renderer.py:98-101 | the rates text is empty exactly when there are no rates |
| Formatting.FormatCurrencyRatesSingle | src/renderer.py:99 | one entry prints as code, `" = "`, the rounded amount and `" руб."` |
| Formatting.FormatCurrencyRatesAppend | src/renderer.py:98-101 | the text of concatenated entries is the two texts joined by `", "` |
| Formatting.CurrencyExampleTie | src/renderer.py:99 | 12.345 prints as `12.35` (half-up) |
| Formatting.CurrencyExampleBelowTie | src/renderer.py:99 | 12.344 prints as `12.34` |
| Formatting.TimezoneText | src/renderer.py:58 | `UTC+` followed by `timezone // 3600`; `TimezoneTextMeaning` states its meaning |
| Formatting.TimezoneTextMeaning | src/renderer.py:58 | the offset cell is `UTC+` and an integer h with `h*3600 <= timezone < h*3600 + 3600` (floor division) |
| Formatting.TimezoneExamples | src/renderer.py:58 | 10800 gives `UTC+3`, -18000 gives `UTC+-5`, -1 gives `UTC+-1` |
| Rendering.BaseRows | src/renderer.py:33-43 | the base table's rows; `BaseRowsLayout` and `BaseRowsCells` state every cell |
| Rendering.WeatherRows | src/renderer.py:47-52 | the weather table's rows, with the subregion and area cells as written; `WeatherRowsSources` states every cell |
| Rendering.TimeRows | src/renderer.py:56-60 | the offset and local-time rows; `TimezoneTextMeaning` and `LocalTimeFromInstant` state their cells |
| Rendering.NewsRows | src/renderer.py:115-121 | one news item's rows; `NewsRowsLayout` states every cell |
| Rendering.NewsTable | src/renderer.py:111-121 | a news table wraps labels at 50 and values at 120 columns and left-aligns values; `FormatNews` builds exactly this table per item |
| Rendering.BaseRowsLayout | src/renderer.py:33-43 | the base table has the nine labels in source order; its name, capital, subregion, latitude and longitude cells carry the location's fields verbatim, and the area cell is the area plus `" кв. км."` |
| Rendering.BaseRowsCells | src/renderer.py:41-43 | the languages and currency cells are empty exactly for empty inputs, and the population cell reads as the number once its dots are removed |
| Rendering.WeatherRowsSources | src/renderer.py:47-52 | the four weather labels in order; the cells are the temperature plus `" °C"`, the description, the location's subregion plus `" м."` and its area plus `" м/с"`; of the weather, only the temperature and description feed the table |
| Rendering.LocalTimeFromInstant | src/renderer.py:59-60 | the local-time cell depends on the weather only through `dt + timezone` |
| Rendering.NewsRowsLayout | src/renderer.py:115-121 | a news table has the seven labels in order, carrying the item's fields verbatim |
| Rendering.NewsBlocksAppend | src/renderer.py:110-122 | the news text of concatenated item lists is the concatenation of their news texts |
| Rendering.NewsBlocksAt | src/renderer.py:110-122 | item i's table stands after the tables of the items before it and before those after it |
| Rendering.Renderer.constructor | src/renderer.py:17-24 | the renderer holds the record it is given |
| Rendering.Renderer.Render | src/renderer.py:26-67 | the report is the country heading, base table, weather heading, weather table, time heading, time table and `"\n"`; the second text is the news text |
| Rendering.Renderer.FormatNews | src/renderer.py:103-124 | the news heading, then one table plus `"\n"` per item in order; exactly the heading for no items |
| Rendering.RenderTwice | src/renderer.py:26-67 | rendering the same record twice gives the same two texts |
| Text.DecimalRoundTrip | src/renderer.py:89 | reading the printed digits of a natural number gives the number back |
| Text.IntRoundTrip | src/renderer.py:58 | `str(i)` of an integer parses back to `i` |
| Text.JoinSplit | src/renderer.py:76-79 | a join splits at any point into two joins around one separator |
| Text.JoinEmptyIff | src/renderer.py:76-79 | with non-empty parts, the joined text is empty exactly when there are no parts |
| Text.WithoutAppend | src/renderer.py:89 | deleting a character distributes over concatenation |
| Text.WithoutSeparator | src/renderer.py:89 | deleting the separator from two texts joined by it joins what is left of each |
| Text.MapTexts | src/renderer.py:76-78 | one text per element, position by position |
| Text.JoinMapAppend | src/renderer.py:76-79 | joining the texts of a concatenation joins the texts of its two parts around one separator |
| Text.ConcatMapAppend | src/renderer.py:110-122 | the concatenated texts of a concatenation are the two parts' concatenated texts |
| Text.ConcatMapAt | src/renderer.py:110-122 | element i's text stands between the texts of the elements before and after it |
| News.GetBaseUrl | src/clients/news.py:19-20 | the provider's base URL; `EndpointExamples` states it is `https://newsapi.org/v2` |
| News.NewsEndpoint | src/clients/news.py:42-44 | the endpoint `get_news` requests, with the country unescaped; `EndpointLayout`, `EndpointRoundTripIff` and `EndpointExamples` state its shape |
| News.RequestHeaders | src/clients/news.py:25 | the headers hold exactly the key `apikey`, carrying the API key |
| News.Request | src/clients/news.py:22-32 | for any transport, one GET of the endpoint with the `apikey` header, yielding the body exactly when the status is 200 |
| News.GetNews | src/clients/news.py:34-44 | `Request` of the endpoint for the country, `Russia` by default; `GetNewsOutcome` states its outcome |
| News.ResponseBody | src/clients/news.py:29-32 | the body is returned exactly when the status is 200, and nothing is returned otherwise |
| News.GetNewsOutcome | src/clients/news.py:22-44 | `get_news` sends one request for its endpoint with the `apikey` header and yields the body exactly on 200 |
| News.EndpointExamples | src/tests/clients/test_news.py:23-36 | the base URL, and the endpoints the client's tests expect for the default country `Russia` and for `test` |
| News.EndpointLayout | src/clients/news.py:42-44 | the endpoint is the base, `/everything?q=`, the country verbatim, the options and the key, with the key closing the URL after `apiKey=` |
| News.EndpointRoundTrip | src/clients/news.py:43 | for a country without `&`, reading the endpoint back gives that country and key |
| News.EndpointAmpersandNoRoundTrip | src/clients/news.py:43 | for a country holding a `&`, reading the endpoint back does not give that country and key |
| News.EndpointRoundTripIff | src/clients/news.py:43 | the endpoint reads back as its country and key exactly when the country holds no `&` |
| News.SpoofedEndpoint | src/clients/news.py:43 | a country that contains the query options gives the same endpoint as a different country and key |
| News.UnescapedCountryIsAmbiguous | src/clients/news.py:43 | such an endpoint reads back as the other country and key, so the unescaped country is ambiguous |
| News.HeaderKeyMatchesQueryKey | src/clients/news.py:25-43 | the `apikey` header carries the same key as the `apiKey=` query parameter |

## Left out

- PrettyTable's drawing, column wrapping and alignment are a library not shown here. The table is modelled as its configuration, including the 50/120 width limits and left alignment. Its text is the parameter `tableText`.
- `datetime.fromtimestamp(...).strftime('%d.%m.%Y %H:%M')` depends on the host's time zone. It is the parameter `localTime`, applied to `dt + timezone`.
- The aiohttp session, `session.get`, `response.json()` and the tracing hook are network I/O. They are the parameter `transport`, and the body type is left generic.
- Reading `API_KEY_NEWS` from the settings is process configuration. The key is a parameter.
- Python's float `str` for area, latitude, longitude and temperature: these values are carried as the text `str` produces.
- Formatting.RoundCents: rates are exact decimals (`units * 10^-scale`). `Decimal(float)` in the original uses the float's exact binary value, so the float 12.345 prints as 12.34 there.
- Formatting.RoundCents: the 28-digit default precision of Python's `Decimal` context, and the `InvalidOperation` that `quantize` raises beyond it, are not modelled.
- Models.LocationInfo: the currency dictionary is a sequence of pairs in its iteration order. Duplicate codes, which a dictionary cannot hold, are not excluded.
- Models.NewsItem: fields the provider leaves null (printed as `None` by the original) are strings here.
- `async`/`await` is left out: nothing runs concurrently, so every operation is sequential.
- The aggregation that fills the record, the other provider clients and `clients.base` are not part of this model.

# Order listing of the WBuy proxy (`main.py`), in Dafny

`main.py` is a small Flask service. It sits in front of the WBuy
e-commerce API and answers `GET /api/wbuy/orders` with a normalised list
of orders: `{ok, rows: [{orderId, numero, tracking, trackingCode, createdAt}]}`.

This project models the logic of that endpoint:

- the helpers `_ok`, `_dt`, `_order_date` and `_unwrap_list`;
- the page loop of `list_orders`. The loop requests pages 1, 2, ... of the
  upstream `order` resource and unwraps each answer. It filters records by
  an optional `from`/`to` date window, drops records whose id is missing or
  already seen, and builds a row with a trimmed, upper-cased tracking code.
  It stops on an empty page, on a page that added no row, on a short page,
  or after `max_pages` pages.

Modules, one per file:

- `PyJson` (`json.dfy`): decoded JSON values as Python sees them. It covers
  truthiness, `or`, `dict.get`, and set keys, where `True` and `1` share one key, as do `False` and `0`,
  and lists and dicts cannot be hashed.
- `Text` (`text.dfy`): `str.strip()` and `str.upper()`.
- `Dates` (`dates.dfy`): `datetime.strptime(s, "%Y-%m-%d").date()`,
  modelled on CPython's matching rules, plus `_dt`. Lemmas relate it to the
  strict ISO 8601 form `YYYY-MM-DD` (section 4.1.2.2 of ISO 8601:2004).
- `Envelope` (`envelope.dfy`): `_ok` and `_unwrap_list`.
- `Orders` (`orders.dfy`): specification functions.
  - `_order_date` and the date window.
  - `Admit`: the id checks.
  - `BuildRow`: the row.
  - `ProcessItems`: the inner loop over one page.
  - `VisitPage`: one iteration of the page loop.
  - `Walk`: the loop over pages.
  - `ListOrdersSpec`: the whole call.
- `FirstWins` (`firstwins.dfy`): first-occurrence-wins deduplication, stated
  without a `seen` set. It is the independent reference the rows are
  compared against.
- `OrderFacts` (`facts.dfy`): what `list_orders` promises, proved about
  `ListOrdersSpec`.
- `Listing` (`listing.dfy`): `list_orders` itself, as a method.
  - The outer `for page` loop and the inner `for o in items` loop update
    `rows`, `seen` and `added_this_page` in place.
  - The inner loop is the method `ScanPage`.
  - The method is proved to give exactly the reply of `ListOrdersSpec`.
- `Scenarios` (`scenarios.dfy`): worked examples on small upstream answers.

The upstream API is a parameter: a total function from page number to
`Response(status, body)`. The body is the decoded JSON, and an empty or
undecodable body is `{}`. Whether `WBUY_TOKEN` is set is a boolean
parameter. `from` and `to` are the raw query arguments, as
`request.args.get` returns them. `page_size` and `max_pages` are integers.

Replies:

- `Listed(rows)`: 200 with the rows.
- `MissingToken`: 500, before any request.
- `HttpError(status, page, pageSize)`: 502, naming the rejected page and
  its parameters.
- `Crashed(fault)`: an exception escaped the loop. Flask answers 500 with
  no rows. These are the exceptions main.py can raise:
  - a record that is not a dict;
  - a present `from`/`to` that does not parse, so `d < None` is compared;
  - an unhashable truthy id;
  - a truthy `frete` that is not a dict;
  - a truthy `rastreio` that is not a string.

  They are modelled as replies, not preconditions, because they depend on
  records of pages the loop may never reach.

Besides the reply, `ListOrders` returns a log with one
`PageLog(page, status, count, added)` entry per requested page. main.py
keeps no such log. Here it records the requests so that the bound on
requests, their order and the stopping rules can be stated.

Properties proved:

- No two rows share an id, as a set element.
- Each row comes from the first admitted record of its id, in fetch order.
- Every admitted record that was read is represented by some row.
- Rows keep fetch order.
- Every row with a parsable date has it inside the window, and every row's tracking code is normalised.
- At most `max_pages` requests are made, for pages 1, 2, ... in order.
- Every page except the last was accepted, full and productive.
- A listing that ended early ended on an empty, unproductive or short page.
- The number of rows is the sum of `added_this_page` over the pages.
- `seen` is always the set of the rows' ids.
- A status `_ok` rejects ends the call with an error naming that page; a listing or a crash read only accepted pages.
- A crash is raised by one of the records read; a listing read no record on which the window or id checks raise.
- With every page accepted and made of harmless records, the call lists.
- `_unwrap_list` follows its envelope rules.
- `strptime` on a date written as `YYYY-MM-DD` gives the date back.

## Model

| member | source | states |
|---|---|---|
| PyJson.Or | main.py:43 | Python's `a or b`: the first operand when it is truthy, else the second; the result is truthy iff either operand is |
| PyJson.Truthy | main.py:128 | Python truthiness: `None`, `False`, `0`, `""`, `[]` and `{}` are false |
| PyJson.Get | main.py:127 | `dict.get(k)`: the value under `k` in a dict, else `None` |
| PyJson.Hashable | main.py:128 | lists and dicts cannot be set elements, so `oid in seen` raises on a truthy one; this decides the unhashable-id crash |
| PyJson.Key | main.py:128-130 | the set element a hashable value stands for: itself, except `True` is `1` and `False` is `0`; hashability and truthiness are kept |
| PyJson.KeyEquality | main.py:128-130 | two hashable values are the same set element iff they are equal, or are `True` and `1`, or `False` and `0` |
| Text.LeadingSpaces | main.py:133 | the whitespace prefix that `strip()` removes: every character before it is whitespace, the next one is not |
| Text.TrailingSpaces | main.py:133 | the whitespace suffix that `strip()` removes: every character in it is whitespace, the one before is not |
| Text.IsSpace | main.py:133 | the characters `str.isspace()` accepts, which `strip()` removes |
| Text.Strip | main.py:133 | `strip()` gives a contiguous slice, with only whitespace cut on either side and no whitespace left at either end |
| Text.UpperChar | main.py:133 | a lower-case ASCII letter becomes the matching capital, every other character is unchanged; no lower-case letter results and whitespace is kept |
| Text.Upper | main.py:133 | `upper()` keeps the length and upper-cases each character in place |
| Text.UpperNormalises | main.py:133 | `upper()` leaves no lower-case letter, keeps whitespace positions, and is idempotent |
| Text.UpperOfUpper | main.py:133 | a string with no lower-case letter is its own `upper()` |
| Text.StripOfStripped | main.py:133 | a string with no whitespace at either end is its own `strip()` |
| Text.StripIdempotent | main.py:133 | `strip()` applied twice equals `strip()` once |
| Dates.Before | main.py:122-124 | the `<` and `>` comparisons of dates: year, then month, then day |
| Dates.ValidDate | main.py:34 | the year, month and day ranges a `datetime.date` accepts, checked after the pattern matched |
| Dates.IsLeap | main.py:34 | the Gregorian leap-year rule `datetime` applies to 29 February: divisible by 4, and not by 100 unless by 400 |
| Dates.DaysInMonth | main.py:34 | the calendar check `strptime` applies: February has 29 days in a leap year and 28 otherwise, April, June, September and November 30, the other months 31 |
| Dates.MonthField | main.py:34 | the `%m` group matches iff the text starts with a digit 1 to 9 or with `0` and a digit 1 to 9; two digits are taken when they read 10 to 12 or `0` and a digit, else one; the value is the number they spell, 1 to 12 |
| Dates.DayField | main.py:34 | the `%d` group matches iff the text starts with a digit 1 to 9, or with `0` or a space and a digit 1 to 9; two digits are taken when they read 10 to 31 or `0` and a digit, else one; a space and a digit give that digit; the value is 1 to 31 |
| Dates.Strptime | main.py:46 | `strptime(s, "%Y-%m-%d").date()`: whatever it returns is a valid calendar date in years 1 to 9999, and `None` stands for every input on which it raises |
| Dates.Dt | main.py:29-36 | `_dt`: `None` for a missing or empty argument, otherwise the `strptime` result, without raising |
| Dates.FormatIso | main.py:30 | writes a date in the `YYYY-MM-DD` form the `_dt` docstring names, in that strict shape; it is used to state the round trip with `strptime` |
| Dates.StrptimeIso | main.py:34 | on a `YYYY-MM-DD` string, `strptime` yields the spelled date iff it is a real date, and `None` otherwise |
| Dates.IsoShapeFormats | main.py:30 | every string in the docstring's `YYYY-MM-DD` form is what `FormatIso` writes for the date it spells |
| Dates.StrptimeFormatIso | main.py:46 | round trip: parsing the `YYYY-MM-DD` form of `d` gives `d` back for every valid date |
| Envelope.Ok | main.py:27 | `_ok`: the accepted statuses are 200, 201 and 202 |
| Envelope.EnvelopeKeys | main.py:54 | the keys probed for a record list, in order: `data`, `orders`, `items`, `results`, `pedidos` |
| Envelope.ListAt | main.py:55-56 | `isinstance(js.get(k), list)` |
| Envelope.FirstList | main.py:54-57 | the key search gives the value of the first key holding a list, and `None` iff no key holds one |
| Envelope.UnwrapList | main.py:50-60 | `_unwrap_list`: `None` and scalars give `[]`; a list is returned as is; a dict gives the first list under `data`, `orders`, `items`, `results`, `pedidos`, or else `[dict]`; it is total |
| Envelope.UnwrapFirstKey | main.py:53-57 | a dict with a list under a key, and under no earlier key, unwraps to that list whatever later keys hold |
| Envelope.UnwrapBareObject | main.py:58-59 | a dict with no list under any envelope key is one record |
| Envelope.UnwrapDataEnvelope | main.py:54-57 | `{"data": l}` unwraps to `l` |
| Orders.RawDate | main.py:43 | the raw timestamp is the first truthy of `data`, `created_at`, `criado_em`, else `""` |
| Orders.Prefix10 | main.py:44 | `s[:10]` is a prefix of `s`: its first ten characters, or all of `s` when it is shorter |
| Orders.DateOfRaw | main.py:44-48 | `_order_date`'s date is `strptime` of the timestamp's first ten characters for a string, and `None` for any other value; a date it yields is valid; it never raises |
| Orders.DateOf | main.py:38-48 | `_order_date(o)[1]`: the date of the record's raw timestamp, present only when that timestamp is a string, and then valid |
| Orders.DateOfIsoPrefix | main.py:41-46 | a timestamp that starts with `YYYY-MM-DD`, followed by anything such as a time of day, yields that date |
| Orders.Supplied | main.py:122-124 | `request.args.get(k)` as a condition: present and not empty |
| Orders.InWindow | main.py:121-125 | a date passes the window when each supplied bound parses, and it is not before `from` nor after `to` |
| Orders.WindowAccepts | main.py:120-121 | a record without a parsable date is never filtered by date |
| Orders.Admit | main.py:119-129 | a record passes the checks before `seen` iff it is a dict, its date is in the window or unparsable, and its id is truthy and hashable; a non-dict record, an unparsable `from` or `to` reached by a dated record, and a truthy unhashable id each raise iff they occur, in that order; no other exception arises here |
| Orders.DateFilter | main.py:120-125 | with parsable bounds, a dated record is dropped iff it is before `from` or after `to`; an undated record is never dropped by date |
| Orders.Frete | main.py:132 | `frete` is the record's `frete` when truthy, else `{}` |
| Orders.Rastreio | main.py:133 | `rastreio` is `frete["rastreio"]` when truthy, else `""`; the `""` for a non-dict `frete` only makes the helper total, since `BuildRow` raises `FreteNotObject` before it is read |
| Orders.Numero | main.py:137 | `numero` is the first truthy of `numero` and `order_number`, else `identificacao` |
| Orders.NormalTracking | main.py:133 | `.strip().upper()` |
| Orders.NormalTrackingIsNormal | main.py:133 | a normalised tracking code has no whitespace at either end and no lower-case letter, and normalising it again changes nothing |
| Orders.BuildRow | main.py:132-141 | a row is built iff `frete` is a dict and `rastreio` a string; it carries the id, `numero` and raw timestamp, with `tracking == trackingCode == upper(strip(rastreio))`; otherwise a non-dict `frete` or a non-string `rastreio` raises, and nothing else |
| Orders.ProcessItem | main.py:119-142 | an exception of the checks propagates; a rejected record is skipped; an admitted record whose key is in `seen` is skipped, and one whose key is new gets the row `BuildRow` builds, or its exception |
| Orders.RowKeys | main.py:130 | the keys of the rows' ids |
| Orders.RowKeysSnoc | main.py:130 | appending a row adds its id's key to the row keys and nothing else |
| Orders.RowKeysMembership | main.py:128-130 | a key is among the row keys iff some row's id has it |
| Orders.ProcessItems | main.py:118-142 | the inner loop only appends to `rows` |
| Orders.VisitPage | main.py:101-150 | each page visit adds one log entry and only appends to the log and the records read; a visit that goes on has appended at least one row; no visit ends for a missing token |
| Orders.Walk | main.py:101-152 | the loop over pages only appends to the log and the records read, requests at most one page per number left in the range, and never answers a missing token |
| Orders.ListOrdersSpec | main.py:83-152 | the missing-token error comes iff there is no token, and then before any request |
| FirstWins.KeysMembership | main.py:128-130 | a key has been collected iff some element read has it |
| FirstWins.IsFirstIff | main.py:128-130 | an element is first for its key iff its key was not collected from the elements before it |
| FirstWins.KeptSnoc | main.py:128-130 | reading one more element keeps it iff its key is new, and adds its key |
| FirstWins.IsFirstPrefix | main.py:128-130 | whether an element is first depends only on the elements up to it |
| FirstWins.KeptAreFirsts | main.py:128-130 | every kept element is first for its key |
| FirstWins.FirstsAreKept | main.py:128-130 | every element that is first for its key is kept |
| FirstWins.KeptKeys | main.py:128-130 | kept elements have keys, and between them every key that was read |
| FirstWins.KeptDistinct | main.py:128-130 | no two kept elements share a key |
| FirstWins.KeptPrefix | main.py:128-130 | reading more elements only appends to what is kept |
| OrderFacts.CorrespondsStep | main.py:127-142 | one record keeps `rows` and `seen` in step with the first-wins reference |
| OrderFacts.CorrespondsKeep | main.py:128-142 | a kept record appends its row and its key, in step with the reference |
| OrderFacts.CorrespondsSkip | main.py:120-129 | a skipped record leaves `rows` and `seen` in step with the reference |
| OrderFacts.ProcessItemsCorresponds | main.py:118-142 | the inner loop over a page keeps `rows` and `seen` in step with the reference |
| OrderFacts.PageCorresponds | main.py:113-142 | reading a whole page from a state in step with the earlier pages leaves it in step with the pages up to that one |
| OrderFacts.VisitRows | main.py:101-150 | a page visit either leaves the state in step for the next page or ends with rows the reference explains |
| OrderFacts.WalkRows | main.py:101-152 | a walk from a state in step ends with a listing equal to the reference over every record read |
| OrderFacts.PageBudget | main.py:101 | the length of `range(1, max_pages + 1)`: `max_pages`, or 0 when it is negative |
| OrderFacts.AppendEntry | main.py:101-102 | logging the next page keeps the log in page order and adds that page's rows to the total |
| OrderFacts.ContinueWith | main.py:145-150 | a full, productive page leaves the walk ready for the next page |
| OrderFacts.StopWith | main.py:105-115 | a page on which the walk ends explains its reply: an error names that page, and a listing ended on a stopping page |
| OrderFacts.VisitLog | main.py:101-150 | one page visit keeps the log explained |
| OrderFacts.WalkLog | main.py:101-152 | every walk ends with a reply its log explains |
| OrderFacts.ListOrdersPages | main.py:83-152 | no request without a token; otherwise pages 1, 2, ... in order, at most `max_pages`; every page before the last continued; an early end is an empty, unproductive or short page; an error names the rejected page and status; the row count is the sum of `added_this_page` |
| OrderFacts.ListOrdersStatuses | main.py:101-106 | entry `i` of the log is page `i + 1` with its status; a listing or a crash read only pages `_ok` accepts; a rejected page is the last one requested and the error names it and its status |
| OrderFacts.ListOrdersBudget | main.py:101 | at most `max_pages` requests, whatever the upstream answers |
| OrderFacts.ListOrdersRows | main.py:97-152 | a listing equals the rows built for the first admitted record of each id among every record read, in fetch order |
| OrderFacts.BuiltKey | main.py:127-136 | a built row carries its record's id and that id's set key |
| OrderFacts.ListedDistinctIds | main.py:127-130 | a listing never holds two rows whose ids are the same set element |
| OrderFacts.ListedRowsWellFormed | main.py:119-141 | every listed row has a truthy, hashable id, a normalised tracking code repeated as `trackingCode`, and a date in the window when it has one |
| OrderFacts.MatchedRowsAreFirsts | main.py:127-130 | rows matching the reference each come from the first admitted record of their id |
| OrderFacts.ListedFirstWins | main.py:127-130 | every listed row comes from the first admitted record of its id; later duplicates never replace it |
| OrderFacts.ListedComplete | main.py:119-141 | every record read that passes the window and has a truthy, hashable id has its id among the rows |
| OrderFacts.FetchedPrefix | main.py:101-113 | reading more pages only appends records |
| OrderFacts.ListedInFetchOrder | main.py:101-141 | the rows from the first `n` pages come first, as the reference over those pages |
| OrderFacts.PrefixRowsMatch | main.py:118-142 | rows matching the reference over some records begin with the rows matching it over any prefix of them |
| OrderFacts.ProcessItemsRaises | main.py:118-141 | an exception in the inner loop is raised by one of the page's records |
| OrderFacts.ProcessItemsQuiet | main.py:118-129 | an inner loop that finishes met no record on which the window or id checks raise |
| OrderFacts.ProcessItemsClean | main.py:118-142 | the inner loop over harmless records finishes |
| OrderFacts.VisitOutcome | main.py:101-150 | a page visit keeps the records read quiet for the next page, or ends with a reply those records explain |
| OrderFacts.WalkOutcome | main.py:101-152 | a walk ends with a crash raised by a record read, or a listing whose records are all quiet |
| OrderFacts.ListOrdersOutcome | main.py:83-152 | a crash is raised by one of the records of the pages requested; a listing read no record on which the window or id checks raise |
| OrderFacts.VisitClean | main.py:101-150 | a visit to an accepted page of harmless records ends, if at all, with a listing |
| OrderFacts.WalkClean | main.py:101-152 | a walk over accepted pages of harmless records ends with a listing |
| OrderFacts.ListOrdersClean | main.py:83-152 | with a token, and every page up to `max_pages` accepted and made of harmless records, the reply is a listing |
| Listing.ListOrders | main.py:83-152 | `list_orders` gives the reply and page log of `ListOrdersSpec`, with at most `max_pages` requests and distinct ids |
| Listing.WalkRejected | main.py:105-106 | a rejected status ends the walk with an error naming the page |
| Listing.WalkEmpty | main.py:113-115 | an empty page ends the walk with the rows so far |
| Listing.WalkFaulted | main.py:118-141 | an exception in the inner loop ends the walk with that exception |
| Listing.WalkScanned | main.py:142-150 | after the inner loop, a page that added nothing or was short ends the walk, and any other goes on |
| Listing.ScanPage | main.py:117-142 | the inner loop raises iff the reference inner loop does; otherwise it yields the same `rows` and `seen`, with `added_this_page` new rows and `seen` equal to the rows' ids |
| Scenarios.ListsRecord7 | main.py:97-152 | `{"data": [{"id": 7, "frete": {"rastreio": "AB123456789BR"}, "data": "2025-09-28 19:28:18"}]}` in the window 2025-09-01 to 2025-09-30 lists one row with id 7, that tracking code and the raw timestamp, after one request |
| Scenarios.StopsOnRepeatedPage | main.py:144-146 | an upstream that repeats page 1 is asked for page 2 only, which adds nothing and ends the walk |
| Scenarios.StrptimeExamples | main.py:46 | `strptime` takes `2025-9-1` and `2024-02-29`, and rejects `2025-02-29` and text after the day |

## Left out

- Flask wiring is not modelled: routing, CORS (main.py:24), `root` and `health` (main.py:63-69) and `app.run` (main.py:155-157).
- Configuration from the environment (main.py:10-18) is not modelled. The presence of `WBUY_TOKEN` is a boolean parameter.
- Transport is not modelled: `requests.get`, its headers and its 40-second timeout (main.py:102-104). An upstream call that raises is not modelled either.
- JSON decoding is not modelled (main.py:108-111). A body is already decoded, and an empty or undecodable one is `{}`.
- JSON floats are not modelled. The JSON values are `None`, booleans, integers, strings, lists and dicts.
- The query parameters sent upstream are not modelled. The upstream is a function of the page number only, and `page_size` is fixed for the whole call, so this loses nothing about one call.
- The clock (`datetime.utcnow()`) is not modelled.
- The default window (main.py:86-92) is not modelled.
  - `f_from` and `f_to` are computed but never read, because the filter uses only the raw `from`/`to` arguments (main.py:122-124).
  - The 30-day default that the docstring (main.py:78-79) promises therefore never applies.
  - Line 92 also needs `timedelta`, which is bound only when the file runs as a script (main.py:156).
- Parsing `page_size` and `max_pages` with `int(...)` (main.py:94-95) is not modelled. Both are integer parameters, and a non-numeric argument, which would raise, is outside the model.
- Text.Upper: only ASCII letters are upper-cased. Python's `upper()` also maps other letters, and some, such as `ß`, to more than one character.
- Dates.Strptime: `%Y`, `%m` and `%d` match ASCII digits only. Python's `\d` also matches other Unicode decimal digits.
- Dates.Strptime is modelled as CPython's lenient `strptime`, not as a strict `YYYY-MM-DD` validator.
  - It accepts unpadded months and days, and a day written as a space and a digit.
  - The strict form is covered by `Dates.StrptimeIso` and `Dates.StrptimeFormatIso`.
- The envelope keys follow main.py:54, in the order `data`, `orders`, `items`, `results`, `pedidos`.

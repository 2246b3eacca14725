# Digikala scraper: a verified model of its deterministic core

The Digikala scraper takes a category listing URL from the Digikala shop. It builds a search-endpoint template from that URL and fetches 100 listing pages with capped retries. From the pages it collects product-detail URLs, fetches each product, and records each product's "suggestion" metric (`count`, `percentage`) under the product's full site URL. It writes the result to the first free file name `<category>_files[_N].json`. The file holds the entries sorted best first by `(count, percentage)`.

This project models the deterministic logic of `digikala_scraper.py` and proves properties about it:

- `parse_url`: module `UrlBuilder`, built on `Strings`, which models Python's `str.split` and `str.replace(pat, "")`.
- `get_products_url` and `get_suggestions`: module `Extraction`. The Python dict is modelled as an insertion-ordered list of `(key, value)` pairs, because its order decides how ties are broken in the sort.
- `get_unique_filename` and the sort in `save_to_file`: module `Writer`.
- The retry loop of `make_request`: module `Fetcher`, as a specification function `Run` over a finite script of attempt outcomes.
- The scraper object: module `Scraper`, a class `DigiKalaScraper` with the two fields that the source updates in place (`TOTAL_SUCCESS`, `category_name`). `ParseUrl` and `MakeRequest` update them, and `FetchData` calls `MakeRequest` once per URL.
- `Decimal` models `str(n)` for the numbers that the source pastes into URLs and file names.

How the outside world is represented:

- **HTTP session**: replaced by a script of outcomes, one per GET attempt: `Response(status, body)`, `Timeout` or `ConnectionError`.
- **Files on disk**: a finite set of existing names.
- **JSON responses**: small datatypes with `Option` fields for the keys the code reads through `.get`.

A retry run can end in three ways:

- `Fetched(body)`: a 200 answer arrived.
- `GaveUp`: the retry budget ran out. The source then returns `None`.
- `Pending`: the script ran out while the loop would still issue another GET. Connection errors do not consume a retry, so a run made only of connection errors never ends in the source. `Fetcher.ConnectionErrorsNeverGiveUp` states this.

## Model

| member | source | states |
|---|---|---|
| `Decimal.NatToDecimal` | digikala_scraper.py:97 | `str(n)`: a non-empty string of digits with no leading zero; `Decimal.DecimalRoundTrip` shows it denotes `n` |
| `Decimal.DecimalRoundTrip` | digikala_scraper.py:97 | reading back the decimal rendering `str(n)` gives `n` |
| `Decimal.DecimalInjective` | digikala_scraper.py:62 | different numbers render differently |
| `Strings.Split` | digikala_scraper.py:30 | `split("/")`: always at least one part; `Strings.SplitShape`, `Strings.JoinSplit` and `Strings.SplitJoin` state its contract |
| `Strings.RemoveAll` | digikala_scraper.py:31 | `replace("category-", "")` never gives a longer result than its input; `Strings.RemoveAllAt` and `Strings.RemoveAllAbsent` together fix its result on every input as deletion of the leftmost, non-overlapping occurrences |
| `Strings.SplitShape` | digikala_scraper.py:30 | `split("/")` yields one part more than there are `/`, and no part contains `/` |
| `Strings.JoinSplit` | digikala_scraper.py:30 | joining the parts of `split("/")` with `/` gives back the URL |
| `Strings.SplitJoin` | digikala_scraper.py:30 | splitting a `/`-join of slash-free parts gives back those parts |
| `Strings.RemoveAllShrinks` | digikala_scraper.py:31 | the result of `replace("category-", "")` is no longer than the input and contains only characters that occur in the input |
| `Strings.RemoveAllAt` | digikala_scraper.py:31 | when `category-` first occurs right after a prefix `x`, the result is `x` followed by the removal applied to what comes after that occurrence, so every occurrence the scan meets is deleted |
| `Strings.RemoveAllAbsent` | digikala_scraper.py:31 | a segment in which `category-` does not occur is left unchanged |
| `UrlBuilder.ParseUrl` | digikala_scraper.py:29-34 | there is no result exactly when the URL has fewer than 5 `/`-segments; otherwise the category is segment 4 with `category-` removed, the template starts with the categories endpoint + category + `/search/` + last segment, ends with `page=`, and the character before `page=` is `&` exactly when the last segment is non-empty (`?` otherwise) |
| `UrlBuilder.TemplateRoundTrip` | digikala_scraper.py:31-34 | the template decodes back to exactly the stored category and the last URL segment, with the separator `parse_url` chose |
| `UrlBuilder.CategoryIsSlug` | digikala_scraper.py:31 | for segment 4 of the form `category-<slug>` (slug not containing `category-`) the category is `<slug>` |
| `Extraction.Contributes` | digikala_scraper.py:64-66 | the page filter: present, `status == 200`, and a non-empty `data.products` (missing `data` or `products` counting as empty); `Extraction.DroppedPage` shows other pages contribute nothing |
| `Extraction.ProductUrls` | digikala_scraper.py:60-68 | `get_products_url`: the number of URLs equals the number of products on the pages that are present, have status 200 and a non-empty product list; order and origin are stated by `Extraction.ProductUrlsAt` and `Extraction.ProductUrlsFrom` |
| `Extraction.ProductUrlsAppend` | digikala_scraper.py:61-67 | the URLs of two runs of pages are the URLs of the first followed by those of the second |
| `Extraction.ProductUrlsAt` | digikala_scraper.py:61-67 | product `j` of a contributing page `i` is the output entry at position (products of earlier contributing pages) + `j`, and that entry is `https://api.digikala.com/v1/product/<id>/` for its id. |
| `Extraction.ProductUrlsFrom` | digikala_scraper.py:61-67 | every emitted URL is the product URL of some product on a contributing page |
| `Extraction.DroppedPage` | digikala_scraper.py:63-66 | an absent, non-200 or empty page contributes nothing: blanking it out leaves the output unchanged |
| `Extraction.ProductUrlInjective` | digikala_scraper.py:62 | distinct product ids give distinct product URLs |
| `Extraction.Put` | digikala_scraper.py:72-77 | the dict store `d[key] = value`: grows by at most one entry and maps `key` to `value` afterwards; `Extraction.PutSpec` states the rest |
| `Extraction.Suggestions` | digikala_scraper.py:70-79 | `get_suggestions`, evaluated left to right: no more entries than responses; `Extraction.SuggestionsKeys` and `Extraction.SuggestionsLastWins` state its keys and values |
| `Extraction.PutSpec` | digikala_scraper.py:72-79 | storing a key in the dict keeps keys unique, adds exactly that key, maps it to the new value, leaves other keys' values alone, and grows the dict only for a new key |
| `Extraction.SuggestionsKeys` | digikala_scraper.py:70-79 | the dict's keys are unique and are exactly `https://www.digikala.com` + uri of the present responses that have a `url`; its size is at most the number of present responses, which is at most the number of responses |
| `Extraction.SuggestionsLastWins` | digikala_scraper.py:72-77 | a kept response whose key no later kept response repeats supplies the stored value: its `suggestion`, or `{count: 0, percentage: 0}` when absent |
| `Writer.FileName` | digikala_scraper.py:97 | the probed name: starts with `<base>_files`, ends with `.json`, and is exactly `<base>_files.json` (length of base + 11) when n = 1; `Writer.FileNameInjective` shows distinct n give distinct names |
| `Writer.FileNameInjective` | digikala_scraper.py:97 | different probe numbers give different file names |
| `Writer.UniqueFilename` | digikala_scraper.py:94-100 | the result is `<base>_files.json` for n = 1 or `<base>_files_<n>.json` for n > 1, for the least n ≥ 1 whose name is not taken; every smaller n is taken, and the loop terminates on the finite set |
| `Writer.SortDesc` | digikala_scraper.py:104-109 | the list `save_to_file` writes: a permutation of the dict's items; `Writer.SortDescSpec` and `Writer.SortDescStable` state its order |
| `Writer.SortDescSpec` | digikala_scraper.py:104-109 | the written sequence is non-increasing in lexicographic `(count, percentage)` and is a permutation of the dict's items |
| `Writer.SortDescStable` | digikala_scraper.py:105-108 | entries with equal keys keep their dict order, as Python's stable `sorted(..., reverse=True)` does |
| `Writer.SortExample` | digikala_scraper.py:105-108 | (2, 50), (5, 10), (5, 90) are written as (5, 90), (5, 10), (2, 50) |
| `Fetcher.Run` | digikala_scraper.py:38-58 | the loop never makes more attempts than the script holds, and a fetched body is the body of the last attempt made, which answered 200 |
| `Fetcher.RunShape` | digikala_scraper.py:38-58 | a fetched body comes from the first 200 answer, reached while the failures that cost a retry were fewer than the budget; giving up means no 200 answer and exactly the budget spent, and a budget of 0 or less means no attempt at all; a pending run used the whole script with budget left |
| `Fetcher.RunSucceedsAt` | digikala_scraper.py:41-46 | conversely, the first 200 answer reached with budget left is returned, after exactly that many attempts |
| `Fetcher.RunGivesUpAt` | digikala_scraper.py:47-54 | conversely, the non-200 or timeout attempt that spends the last retry ends the loop with nothing |
| `Fetcher.RunPendingAll` | digikala_scraper.py:38-56 | conversely, a script with no 200 answer and budget left at its end keeps the loop running |
| `Fetcher.ConnectionErrorsNeverGiveUp` | digikala_scraper.py:55-56 | connection errors leave the budget unchanged, so a script of only connection errors never gives up |
| `Fetcher.NoConnectionErrorsTerminate` | digikala_scraper.py:47-54 | without connection errors, each attempt that fails costs one retry, so the loop ends within `retries` attempts |
| `Scraper.FetchedCountBound` | digikala_scraper.py:42 | the number of successes is at most the number of requests, with equality exactly when all were fetched |
| `Scraper.DigiKalaScraper.constructor` | digikala_scraper.py:16-27 | a new scraper has a success count of 0 and an empty category name |
| `Scraper.DigiKalaScraper.ParseUrl` | digikala_scraper.py:29-34 | returns the template and stores the category; on a URL that is too short, no template is returned and `category_name` is unchanged |
| `Scraper.DigiKalaScraper.MakeRequest` | digikala_scraper.py:36-58 | the loop's result and attempt count are those of `Run`; the success counter goes up by one exactly when a body is returned |
| `Scraper.DigiKalaScraper.FetchData` | digikala_scraper.py:81-92 | one result per URL, in input order, each that of a request with budget `MAX_RETRIES`; the success counter goes up by the number of fetched bodies |

## Left out

- The aiohttp session: `session.get`, `resp.json()` and the 8-second timeout. They are network I/O, replaced by the outcome script. A `Pending` result stands for "the source would try again".
- Scraper.DigiKalaScraper.MakeRequest: a 200 answer always yields its body in the model. In the source, the counter goes up before `resp.json()` is awaited. A body read that hits the 8-second timeout has then already counted a success, spends one retry, and the loop goes on. A body that is not JSON counts a success and then raises. Neither path is modelled, so "the counter goes up exactly when a body is returned" is narrower than the source.
- `asyncio.sleep(0.1)` after the loop: a delay with no effect on the result.
- `asyncio.Semaphore` (15 slots) and `asyncio.gather`. Concurrency is not modelled. `Scraper.DigiKalaScraper.FetchData` runs the requests one after another. Under cooperative scheduling this gives the same per-URL results and counter total. The gate size `MAX_CONCURRENT_REQUESTS = 15` has no counterpart in the model.
- Fail-fast propagation of an exception from one task of `gather`, and Python `KeyError`s on malformed JSON. Responses are assumed to have the shapes the code indexes: `data.product` always present, `url` always carrying `uri`, each listed product carrying `id`.
- JSON `null` values count as malformed shapes too. `Option` stands for a missing key only. With `"suggestion": null`, the source stores `None` and the sort key then raises `TypeError`, where the model uses the `{0, 0}` default. With `"data": null` on a page, the source raises `AttributeError`, where the model treats the page as empty.
- Python truthiness of an empty response dict `{}`. Such a page has no status 200, so it is filtered out either way.
- Logging set-up, log messages and `perf_counter` timing.
- `main`: `sys.argv` handling, its `assert`, the fixed `range(100)` page fan-out, and the `#Lost data` report. The report follows from `Extraction.SuggestionsKeys`: the dict never has more entries than there are product responses.
- `open` and `json.dump` in `save_to_file`, and `os.path.isfile`. Only the sort is modelled, and file existence is a set of names.
- Floats: `count` and `percentage` are integers.
- Product ids are non-negative integers rendered in decimal. Other JSON id types are not modelled.
- `Extraction.Suggestions`: the model keeps the dict's insertion order, but no lemma states that keys appear in first-occurrence order.

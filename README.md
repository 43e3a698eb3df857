# GOAT catalogue export, modelled in Dafny

The script `main.py` takes a list of sneaker links. For each link it asks a catalogue
service for the product and then for that product's price list, and flattens the two
into spreadsheet rows: one row per distinct size. This project models the logic of that
script once the HTTP client, asyncio scheduling and pandas input/output are removed.
It has five parts:

- `retry.dfy` (module `Retrying`) models the retrying GET `get_product_from_goat`. The
  network is a function from the attempt number to what that attempt yields (a response
  with a status and body, or a timeout). A 200 response returns its body. Any other
  status returns `None` at once. A timeout moves on to the next attempt. After `retries`
  timeouts the result is `None`. This is the fetch the handler is meant to implement;
  as written, the handler does not catch the client's timeouts (see "## Findings"), and
  `Retrying.RetryAsWritten` models that behaviour next to it.
- `photos.dfy` (module `Photos`) models `get_photo`. No pictures gives no value. One or
  two pictures raise the IndexError of `photo_list[2]`. Otherwise the result starts with
  the URL at position 2, followed by the URLs at the positions listed in `PHOTO_INDEX`,
  in increasing order, joined with `"; "`.
- `product.dfy` (module `Product`) models the product's shared columns (`base_res_dict`):
  the pass-through fields, the joined category list, the photo column and the release
  date (`DD.MM.YYYY`, or "Намає інформації" when there is none).
- `variants.dfy` (module `Variants`) models the flattening loop of `parse_api`. The loop
  keeps the first entry of each size presentation. The first row's SKU is the product
  SKU; the k-th row's SKU is `sku-k`. Each row's price, old price, availability and
  display flag come from the entry's amounts in cents. The loop (`FlattenPrices`) is
  proved against a reference definition (`Flatten`). The lemmas show that:
  - there is exactly one row per distinct size;
  - each row comes from its size's first entry;
  - rows appear in first-occurrence order;
  - no two rows share a SKU.
- `pipeline.dfy` (module `Pipeline`) models the gating in `parse_api` and the `main`
  coordinator:
  - a falsy product gives `None`;
  - a falsy price list gives `[]`;
  - `asyncio.gather` returns results in task order, and re-raises an exception that
    any task raised;
  - the rows of the truthy results are concatenated in task order.

`values.dfy` (module `Values`) holds the shared `Option`/`Outcome` types and the
exceptions that propagate. `text.dfy` (module `Text`) holds `str.join` and `str` of a
non-negative integer.

Three behaviours of the code that a reader might not expect:

- An exception in one job is not contained. `asyncio.gather` re-raises it, and `main`
  ends without output (`Pipeline.MainResult` is `Raised`).
- Results are concatenated in task order, not completion order.
- A product with one or two pictures raises an IndexError. The seed step is not skipped.

## Model

| member | source | states |
|---|---|---|
| `Retrying.RetryFrom` | main.py:26-40 | the attempt count reported from attempt `i` on stays between `i` and `retries` |
| `Retrying.Retry` | main.py:26-40 | the fetch never issues more than `retries` GETs |
| `Retrying.FetchWithRetry` | main.py:25-40 | with the client's timeout caught (the corrected handler), the loop returns exactly the body and attempt count of the reference definition `Retry` |
| `Retrying.RetryShape` | main.py:26-40 | at most `retries` GETs; every GET before the last timed out; the fetch stops early only on a response; it returns a body exactly when the last GET was a 200 response, and then that response's body |
| `Retrying.RetryStopsOnRejection` | main.py:29-34 | a non-200 status after timeouts only ends the fetch with `None` after that attempt, with no further attempts |
| `Retrying.RetryReturnsFirstOk` | main.py:29-30 | the first 200 response after timeouts only is returned, after that many attempts |
| `Retrying.RetryAllTimeouts` | main.py:35-40 | when every allowed attempt times out, all `retries` attempts are used and `None` is returned |
| `Retrying.RetryFromSkipsTimeouts` | main.py:35-38 | timeouts only move the fetch on to the next attempt |
| `Retrying.RetryAsWritten` | main.py:25-40 | the fetch as written raises exactly when there is an attempt and the first one times out, and then with the client's timeout; otherwise it agrees with `Retry` |
| `Retrying.RetryAsWrittenRaisesOnTimeout` | main.py:35-40 | when every attempt times out, the intended fetch returns `None` after all attempts, while the fetch as written raises |
| `Photos.Photo` | main.py:43-50 | no value exactly for an empty list; IndexError exactly for one or two pictures; otherwise a value that starts with the URL at position 2 |
| `Photos.GetPhoto` | main.py:43-50 | the index loop returns exactly what `Photo` describes |
| `Photos.Preferred` | main.py:46-48 | the scan adds at most one URL per position |
| `Photos.PreferredCount` | main.py:46-48 | the scan adds one URL per position below the list length that the index lists |
| `Photos.PhotoCount` | main.py:45-48 | the joined list has 1 + the number of listed positions below the list length entries |
| `Photos.PreferredFollowsIndex` | main.py:46-48 | for an ascending index, the added URLs are those at the index entries below the list length, in the index's order |
| `Photos.PhotoListShape` | main.py:43-50 | with PHOTO_INDEX, the photo column is the "; "-join of a list that holds the URL at position 2 first, then the URLs at the PHOTO_INDEX positions that exist, in strictly increasing position order |
| `Photos.BelowNext` | main.py:46-47 | for an ascending index, raising the bound by one adds that position exactly when the index lists it |
| `Text.Join` | main.py:50 | joining no parts gives "", one part gives that part, and the result starts with the first part |
| `Text.Decimal` | main.py:117 | `str` of a non-negative integer is a non-empty string of digits, with at least two digits from 10 on and no leading zero for a positive number |
| `Text.DecimalRoundTrip` | main.py:117 | reading back the digits `str` wrote gives the number again |
| `Text.DecimalInjective` | main.py:117 | different numbers have different decimal strings |
| `Product.Pad2` | main.py:101 | `%d`/`%m` write two digits that read back as the number |
| `Product.FormatDate` | main.py:101 | for a valid date, `DD.MM.YYYY` has dots at positions 2 and 5, and its three fields read back as day, month and year |
| `Product.ReleaseDate` | main.py:100-103 | the release-date column is "Намає інформації" exactly when the product has no release date, otherwise the formatted date |
| `Product.BaseRecordOf` | main.py:78-104 | the shared columns carry the product's id and SKU, the given photo column, the category list joined with ", ", and the no-information date exactly when the date is absent |
| `Product.BaseOf` | main.py:78-104 | building the shared columns raises, and then the IndexError, exactly when the product has one or two pictures; otherwise the photo column is empty exactly when there are no pictures |
| `Variants.Price` | main.py:120-123 | the price is the last-sold amount whichever branch of the zero test runs |
| `Variants.OldPrice` | main.py:124-127 | the old price is the lowest-price amount when present, otherwise the price |
| `Variants.Availability` | main.py:128-130 | "В наявності" exactly when the last-sold amount is non-zero, "Немає в наявності" exactly when it is zero |
| `Variants.Display` | main.py:131 | "Да" exactly when the last-sold amount is non-zero, "Нет" exactly when it is zero |
| `Variants.SkuFor` | main.py:115-118 | row 0 gets the product SKU; row k > 0 gets the SKU, a dash, and a suffix of digits without a leading zero that reads back as k, which is `str(k)` |
| `Variants.SkusDistinct` | main.py:115-118 | different row numbers give different SKUs |
| `Variants.SizesAppend` | main.py:112 | adding an entry adds its size to the seen sizes |
| `Variants.FirstIndex` | main.py:108-112 | the first position of a size holds that size, and no earlier position does |
| `Variants.FlattenAppend` | main.py:108-134 | an entry whose size was seen leaves the rows unchanged; a new size appends one row numbered by the rows already emitted |
| `Variants.FlattenPrices` | main.py:106-134 | with the seen-size set equal to the sizes so far and the counter equal to the rows so far, the loop returns the reference rows: one per distinct size, each carrying the shared columns and SKU number k |
| `Variants.FirstIndexPrefix` | main.py:108-112 | appending an entry does not move the first position of a size already seen |
| `Variants.FirstOccurrencesSizes` | main.py:108-112 | the kept entries have pairwise distinct sizes and cover every size of the list |
| `Variants.FirstOccurrencesShape` | main.py:108-112 | each kept entry is its size's first entry, and the kept entries follow first-occurrence order |
| `Variants.FirstOccurrencesCount` | main.py:108-112 | as many kept entries as distinct sizes |
| `Variants.FlattenCount` | main.py:106-134 | as many rows as distinct sizes |
| `Variants.FlattenShape` | main.py:106-134 | exactly one row per distinct size; row k is built from its size's first entry with SKU number k; rows follow first-occurrence order |
| `Variants.FlattenSkusDistinct` | main.py:115-118 | no two rows of a product share a SKU |
| `Variants.FlattenFlagsAgree` | main.py:128-131 | in every row the availability is "В наявності" exactly when the display flag is "Да" |
| `Pipeline.ParseApi` | main.py:53-136 | the job returns the reference result; a falsy product gives `None`; a found product with a falsy price list gives `[]` |
| `Pipeline.JobSkippedOnTimeouts` | main.py:63-64 | a product request that times out on every attempt makes the job return `None` |
| `Pipeline.JobEmptyOnRejectedPrices` | main.py:69-77 | a found product whose price request is rejected, on any attempt after timeouts only, makes the job return `[]` |
| `Pipeline.GatherShape` | main.py:153 | gathering raises exactly when some task raised; otherwise it holds every task's value at that task's position |
| `Pipeline.Collect` | main.py:155-157 | the extend loop returns the concatenation of the truthy results' rows |
| `Pipeline.ConcatAppend` | main.py:155-157 | concatenating two runs of results concatenates their rows |
| `Pipeline.ConcatSingle` | main.py:156-157 | a single result contributes exactly its own rows |
| `Pipeline.ConcatAround` | main.py:155-157 | the rows of a result come after those of the earlier results and before those of the later ones |
| `Pipeline.ConcatMembership` | main.py:155-157 | a row is in the output exactly when some result holds it |
| `Pipeline.Outcomes` | main.py:148-153 | one result per link |
| `Pipeline.Run` | main.py:145-157 | the coordinator returns the reference result of `main` |
| `Pipeline.FinishCons` | main.py:153-157 | the first task's rows come before those of the others, unless a task raised |
| `Pipeline.FinishDropsEmpty` | main.py:153-157 | removing a task that returned `None` or `[]` leaves the outcome unchanged |
| `Pipeline.JobWithoutRowsContributesNothing` | main.py:153-157 | a job returning `None` or `[]` leaves the run's result as if it had not been launched |
| `Pipeline.TimedOutJobContributesNothing` | main.py:63-64 | a link whose product request times out on every attempt adds nothing to the run |
| `Pipeline.ThreeEntriesTwoSizes` | main.py:106-134 | three entries over two sizes, with the third repeating the first, give two rows: SKU number 0 from the first entry and SKU number 1 from the second |
| `Pipeline.FoundJobRows` | main.py:53-136 | a product and a price list that both come back on the first attempt give the flattened price list, for a product whose photo column can be built |
| `Pipeline.TwoLinkRun` | main.py:139-157 | with one link found (three entries, two sizes) and one link that always times out, the run yields two rows, both of the first product |
| `Pipeline.JobOutcomeAsWritten` | main.py:53-77 | with the fetch as written, the job raises exactly when the first product attempt times out, or the product is found and the first price attempt times out, or the reference job raises; a first product attempt that times out raises the client's timeout, and the job differs from the reference definition only by raising it |
| `Pipeline.TwoLinkRunAsWritten` | main.py:139-157 | on the input of `TwoLinkRun`, the intended run yields two rows, while the run as written raises the client's timeout |

## Left out

- The HTTP client, the URLs, the headers, the query parameters and the 40-second
  timeout are left out. Each request is an abstract sequence of attempt outcomes. The
  price request's dependence on the product id is part of that abstraction.
- Other transport exceptions are left out: connection errors and JSON decoding errors.
  Either would propagate like the IndexError.
- Every member built on `Retrying.Retry` or `Retrying.FetchWithRetry` models the
  corrected handler, in which the client's timeouts are caught and retried. The code as
  written does not catch them (see "## Findings"), so these members describe it only
  for requests whose first attempt does not time out: `Retrying.RetryFrom`,
  `Retrying.Retry`, `Retrying.FetchWithRetry`, `Retrying.RetryShape`,
  `Retrying.RetryStopsOnRejection` and `Retrying.RetryReturnsFirstOk` (for k > 0),
  `Retrying.RetryAllTimeouts`, `Retrying.RetryFromSkipsTimeouts`, `Pipeline.ParseApi`,
  `Pipeline.JobSkippedOnTimeouts`, `Pipeline.JobEmptyOnRejectedPrices` (for k > 0),
  `Pipeline.Outcomes`, `Pipeline.Run`, `Pipeline.JobWithoutRowsContributesNothing`,
  `Pipeline.TimedOutJobContributesNothing`, `Pipeline.FoundJobRows` and
  `Pipeline.TwoLinkRun`. `Retrying.RetryAsWritten`, `Pipeline.JobOutcomeAsWritten` and
  `Pipeline.MainResultAsWritten` are the code as written; `RetryAsWritten` agrees with
  `Retry` whenever it does not raise, and `Pipeline.TwoLinkRunAsWritten` shows a run on
  which the two differ.
- `asyncio.Semaphore(2)` and task scheduling are concurrency; only the task order of the
  gathered results is kept. `time.sleep` and all `print` logging have no functional
  content.
- Reading the link list, writing the spreadsheet, `load_dotenv` and `os.getenv` are
  input/output.
- Prices are kept in integer cents (`Variants.Money`). The float division and
  `round(…, 2)` are left out.
- Parsing the ISO release date is left out. The model starts from the parsed date.
  `Product.FormatDate` states its result only for years 1000–9999, where `%Y` writes
  four digits.
- `Retrying.FetchWithRetry` takes `retries` as a natural number. A negative value
  behaves like 0 in `get_product_from_goat`, and every caller passes the default 3.
- Missing or ill-typed fields in the responses are left out. They would raise KeyError
  or TypeError: `sizeOption`, `lastSoldPriceCents`, `lowestPriceCents`, the currency
  object, and a `None` category list passed to `join`.
- The model keeps the product's fields as given. Columns filled twice with the same
  value appear once in `Product.BaseRecord`.
- `copy.deepcopy` of the shared columns is left out. Each row is built as a fresh value.
- `get_photo`'s fallback to position 0 is left out. It sits behind a length test that
  is always true for a non-empty list, so it never runs.
- `Text.Join`: the model does not state how the joined photo string splits back into
  URLs. A URL may itself contain `"; "`.
- Which exception `gather` re-raises when several tasks raise: the model re-raises the
  first one in task order, while `asyncio.gather` re-raises the first one to occur.

## Findings

| source | as written | input that shows it | evidently intended | confidence | as-written member | corrected member |
|---|---|---|---|---|---|---|
| main.py:35 | the retry handler catches `TimeoutException`, imported from `httpcore` at line 11, but `httpx.AsyncClient.get` raises httpx's own timeout classes, which are not subclasses of it; so the first timeout leaves `get_product_from_goat`, `parse_api` and `gather`, and `main` ends without output | two links: the first found at once, with three price entries over two sizes; every product request of the second times out | a timeout is retried up to `retries` times, then the fetch returns `None` and that link contributes no rows | not executed; rests on httpx's exception mapping, which is not part of this model | `Retrying.RetryAsWritten`, `Pipeline.JobOutcomeAsWritten`, `Pipeline.TwoLinkRunAsWritten` | `Retrying.Retry`, `Pipeline.TwoLinkRun` |

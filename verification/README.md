# Book catalogue analyser: record shaping, modelled in Dafny

This project models the record-shaping core of `AnalisadorLivros`, the
"ethical web scraping" book analyser in `scrap.py`. Its four steps are:

1. **Field extraction** (`extrair_info_livro`). One `article.product_pod`
   container becomes a record with title, price text, availability text,
   rating label and rating number. A missing price or availability node
   becomes the sentinel `"N/A"`. A missing title drops the container. The
   rating label is the first class token other than `star-rating`. The
   fixed table `One..Five` maps it to 1..5, and any other label maps to 0.
2. **Page collection** (`scrape_pagina_unica`). A failed request gives no
   records. Otherwise the containers are enumerated from 1 *before* the
   failed extractions are filtered out, so `numero_sequencia` is the
   container's position among all containers and has gaps where one was
   dropped.
3. **Multi-page walk** (`scrape_multiplas_paginas`). Pages 1..N are visited
   in order at `{url_base}/catalogue/page-{n}.html`. Each record is tagged
   with `pagina`, and the pages are concatenated.
4. **Aggregation** (`analisar_dados`). Empty input gives the empty dict.
   Otherwise the result holds `total_livros` plus an all-or-nothing block.
   That block runs only when every price converts after removing `£`. It
   fills in the price mean, the rating mean, the rating-label distribution
   and the per-page counts, with pages in ascending order.

Layout, one module per file:

- `wrappers.dfy` (`Wrappers`): `Option`.
- `text.dfy` (`Text`): Python's `str.strip()`, `str.replace(c, '')`, and
  the decimal rendering of a page number.
- `extraction.dfy` (`Extraction`): the container and record datatypes, the
  rating table and the label choice, `ExtractBook`.
- `page.dfy` (`Page`): `Collect` and `ScrapePage`.
- `walk.dfy` (`Walk`): `PageUrl`, `Walk` over an abstract page collector,
  and `Catalog`, which is the walk with `ScrapePage` after a request.
- `aggregation.dfy` (`Aggregation`): `Analyze`.

Inputs that the program gets from outside become parameters:

- The HTTP request for a URL is `fetch: string -> Option<seq<Container>>`.
  `None` stands for the request returning nothing (timeout, HTTP error or
  connection error). `Some` holds the parsed containers in document order.
- `float()` on a price text is `parse: string -> Option<real>`.
- Means are kept exactly, as (sum, count) pairs.

Three behaviours of the code to keep in mind:

- Sequence numbers have gaps at dropped containers. They are not renumbered
  densely.
- A single unconvertible price leaves the whole block at its defaults: price
  `N/A`, rating 0, empty distribution and empty page counts. The
  unconvertible record is not simply left out of the price mean.
- Empty input returns the empty dict. It does not return a report filled
  with zeros.

## Model

| member | source | states |
|---|---|---|
| `Extraction.RatingNumber` | scrap.py:116-118 | the rating number is at most 5; it is i+1 exactly when the label is the i-th of One..Five, and 0 exactly when the label is not in the table (so also for "N/A") |
| `Extraction.RatingLabel` | scrap.py:111-114 | the label is the first class token different from "star-rating"; it is "N/A" when every token is "star-rating" or there are none; otherwise it is some first non-marker token |
| `Extraction.ExtractBook` | scrap.py:95-131 | a record exists exactly when the title exists; title kept; missing price or availability becomes "N/A"; availability is the stripped text; missing rating node gives label "N/A" and number 0; every record is well formed (number is the table value of its label) |
| `Text.Strip` | scrap.py:109 | the result is a slice of the input with only whitespace cut off either end, and it neither starts nor ends with whitespace |
| `Text.StripIdempotent` | scrap.py:109 | stripping an already stripped availability text changes nothing |
| `Text.RemoveAll` | scrap.py:203 | no `£` is left, every other character keeps its count, and a text without `£` is unchanged |
| `Text.RemoveAllAppend` | scrap.py:203 | removing `£` from a concatenation removes it from each part and keeps the parts in order, so the kept characters stay in their original order |
| `Text.RemoveAllSingle` | scrap.py:203 | a single `£` is removed and any other single character is kept |
| `Text.NatToDecimal` | scrap.py:169 | the page number renders as a non-empty digit string without leading zeros |
| `Text.DecimalRoundTrip` | scrap.py:169 | reading the rendered digits back gives the page number |
| `Page.Collect` | scrap.py:149-158 | at most one record per container; each record's sequence number is the 1-based position of a container whose extraction gave exactly that record; numbers strictly increase; every accepted container appears |
| `Page.ScrapePage` | scrap.py:133-158 | a failed request gives []; otherwise the records satisfy the properties of `Collect`, are well formed, and position i+1 is used exactly when container i's extraction succeeds (gaps exactly at dropped containers) |
| `Page.Gaps` | scrap.py:151-155 | in a sound and complete page result, position i+1 is used exactly when container i is accepted |
| `Page.CollectUnique` | scrap.py:151-155 | any record list that is sound, strictly increasing and complete for the containers is exactly the page result |
| `Walk.PageUrlShape` | scrap.py:169 | the URL `PageUrl` builds is the base, then `/catalogue/page-`, then a digit string that reads back as the page number, then `.html` |
| `Walk.TagPage` | scrap.py:173-175 | tagging keeps length, order, record and sequence number, and sets `pagina` to the page |
| `Walk.WalkUpTo` | scrap.py:166-176 | after n iterations the URLs of pages 1..n were requested in order; every record's page is in 1..n and page numbers never decrease; records are in page order then sequence order whenever each page result is increasing |
| `Walk.Walk` | scrap.py:160-181 | exactly max(0, total_paginas) pages are requested, page i+1 at position i, none when total_paginas < 1; records lie on pages 1..total_paginas and page numbers never decrease along the output; whenever every collector result is increasing, records are ordered by page then sequence number |
| `Walk.Catalog` | scrap.py:168-175 | the walk with `scrape_pagina_unica` as collector requests every page URL in order, and its records are well formed and in page order then sequence order |
| `Walk.WalkPages` | scrap.py:172-175 | the records of page p are exactly page p's collector result tagged p, for p in 1..total_paginas, and there are none for any other p |
| `Walk.CatalogPages` | scrap.py:172-175 | in the full collection, page p's records are exactly what `scrape_pagina_unica` made of page p's response, tagged p |
| `Walk.WalkLength` | scrap.py:172-175 | the walk's length is the sum of the per-page result lengths |
| `Walk.FailedPageSkipped` | scrap.py:139-141 | a page whose request fails contributes no records, and every later page is still requested |
| `Walk.PageUrlInjective` | scrap.py:169 | distinct page numbers give distinct URLs |
| `Walk.RequestsDistinct` | scrap.py:168-169 | the walk never requests the same URL twice |
| `Aggregation.ParsePrices` | scrap.py:203 | the price column converts exactly when every `£`-stripped price converts; the values are then position by position the converted prices |
| `Aggregation.RatingSum` | scrap.py:207 | the rating sum of well-formed records is at most 5 per record |
| `Aggregation.RatingTally` | scrap.py:208 | the distribution is the multiset of the records' rating labels, so its counts sum to the number of records |
| `Aggregation.Insert` | scrap.py:209 | counting one more record for a page keeps the page list strictly ascending, and no page of the result lies below both that page and the old first page |
| `Aggregation.InsertPages` | scrap.py:209 | the pages of the list after counting one more record for page p are the old pages plus p: no other page is added and none is lost |
| `Aggregation.InsertCounts` | scrap.py:209 | counting one more record for a page raises that page's count by one and leaves every other count alone |
| `Aggregation.InsertTotal` | scrap.py:209 | counting one more record for a page raises the total by one and keeps every count positive |
| `Aggregation.PageCounts` | scrap.py:209 | the per-page list is strictly ascending by page, has no zero count, holds for each page the number of records on it, and its counts sum to the number of records |
| `Aggregation.Analyze` | scrap.py:183-214 | empty input exactly gives the empty dict; otherwise `total_livros` is the record count; if every price converts, the price mean is (sum of prices, count), the rating mean is (sum of ratings, count) over all records, the distribution is the multiset of labels, and the page counts are ascending, positive, exact and sum to the total; if any price fails, all four stay at their defaults |
| `Aggregation.MissingPriceVoidsStatistics` | scrap.py:201-212 | one record with the "N/A" price sentinel, which `float()` rejects, leaves every statistic at its default |
| `Aggregation.CatalogStatistics` | scrap.py:207-209 | for the full collection, the per-page count for page p is the number of records page p yielded (0 outside 1..total_paginas), and the rating sum is at most 5 per record |

## Left out

- HTTP is left out: `fazer_requisicao_segura`, `verificar_robots_txt`, `setup_headers` and the session. The request is the `fetch` parameter, and its three failure kinds are folded into `None`.
- The `time.sleep` pacing delays (scrap.py:77, 178) are left out. They have no effect on the records.
- BeautifulSoup parsing is left out (`find_all`, `find`, `.text`, `h3.a['title']`). A container is the datatype of what extraction reads from it.
- `timestamp_coleta` (`datetime.now()`) is not a field of the record, because the clock is non-deterministic.
- `float()` is the abstract `parse`.
- The pandas float mean and the `£{:.2f}` formatting are left out. Both means are exact (sum, count) pairs, so float rounding is not modelled.
- Aggregation.Analyze: `parse` yields only finite reals. Python's `float()` also accepts texts such as "nan" and "inf" (scrap.py:203), and pandas `mean()` skips NaN values. A price column holding "£nan" would give the source a mean over fewer records than `total_livros`. The model cannot express that, because a price either fails to convert (voiding the block) or counts in a mean over every record.
- The default `total_paginas=3` of `scrape_multiplas_paginas` (scrap.py:160) is not modelled. `Walk` and `Catalog` always take the page count as an argument.
- The order of `value_counts()` by frequency is not modelled. The rating distribution is a multiset.
- `exportar_dados` (files, CSV, JSON), `gerar_relatorio` (printing), `main` (fixed configuration and interrupt handling) and all logging are left out.
- The walk requires every record to carry a page. A KeyError on a missing `pagina` column therefore cannot happen in the model. It could happen if `analisar_dados` were called directly on untagged records.

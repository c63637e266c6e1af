# Amazon product scraper — a Dafny model of its core

The scraper is a Streamlit app in one Python file, `amazon_scrappy.py`. Given a search query, it:

- harvests product links from an Amazon results page;
- visits at most the first ten of them;
- reads each product's title, landing image URL and off-screen price, each lookup with its own fallback;
- keeps a row only for products whose title was found;
- downloads each kept product's image under a sanitised, collision-free file name in `imagenes/`;
- merges the kept rows into `busquedas.xlsx` by reading the existing rows and writing them back with the new rows after them.

The model puts these rules in Dafny, with I/O replaced by inputs:

- **Network.** Each kind of request becomes a function of the URL asked for:
  - the hrefs that the results-page selector matches;
  - the product page that a product URL yields;
  - the HTTP status that an image URL answers with.
- **Filesystem.** The image folder is the set of paths that exist. The spreadsheet is `Option<seq<Row>>`, where `None` means there is no file yet. Both are passed in and returned, so the model keeps no hidden state.

Modules:

- `PathText` (path_text.dfy): the Python pieces the image naming depends on:
  - decimal rendering of the probe counter;
  - `str.rfind`;
  - `os.path.splitext` on a POSIX path.
- `ImageFiles` (image_files.dfy): `save_image`, which covers:
  - sanitising the name;
  - the linear collision probe, whose specification function `FreeIndexFrom` terminates by the measure "existing paths not yet probed";
  - the status-200 gate.
- `SearchResults` (search_results.dfy): `get_search_results`, which builds the search URL and makes relative hrefs absolute.
- `ProductPage` (product_page.dfy): `get_product_info` and its three independent fallbacks.
- `Dataset` (dataset.dfy): `save_to_excel`, which concatenates rows.
- `Scraper` (scraper.dfy): the top-level script. It has a first-ten loop that keeps titled products, then an image save, then a merge.

## Model

| member | source | states |
|---|---|---|
| `PathText.NatToString` | amazon_scrappy.py:48 | The counter's text is non-empty and all digits. It is one character long exactly when the counter is below 10, and it has no leading zero. |
| `PathText.ParseNatToString` | amazon_scrappy.py:48 | Reading the rendered counter back as decimal gives the counter. |
| `PathText.NatToStringInjective` | amazon_scrappy.py:48 | Different counters render as different texts. |
| `PathText.LastIndexOf` | amazon_scrappy.py:45 | The result is -1 or an index holding the character, and no later index holds it. |
| `PathText.SplitExt` | amazon_scrappy.py:45 | Base followed by extension is the path. The extension is empty or starts with '.', contains no '/', and has no other '.'. |
| `ImageFiles.StripIllegal` | amazon_scrappy.py:41 | The result is no longer than the input and contains none of `< > : " / \ | ? *`. |
| `ImageFiles.StripIllegalAppend` | amazon_scrappy.py:41 | Deleting illegal characters from a concatenation deletes them from each part. |
| `ImageFiles.StripIllegalKeepsLegal` | amazon_scrappy.py:41 | A name without illegal characters is unchanged. |
| `ImageFiles.StripIllegalCounts` | amazon_scrappy.py:41 | Every legal character is kept as many times as it occurs. |
| `ImageFiles.Sanitize` | amazon_scrappy.py:41-42 | The stem has at most 10 characters and no illegal ones. It is the first min(10, n) characters of the name with the illegal characters removed. |
| `ImageFiles.SanitizeIdempotent` | amazon_scrappy.py:41-42 | Sanitising twice gives the same stem as sanitising once. |
| `ImageFiles.SanitizedHasNoSlash` | amazon_scrappy.py:41-43 | A sanitised stem has no '/', so joining it under `imagenes` stays in that folder. |
| `ImageFiles.InitialPath` | amazon_scrappy.py:43 | The joined path starts with `imagenes/` and ends with `.jpg`, with the stem exactly in between. |
| `ImageFiles.Probe` | amazon_scrappy.py:43-48 | Step 0 is the joined path. Step k ≥ 1 starts with the splitext base and `_`, then k's decimal text, and ends with the splitext extension. It is longer than the joined path by 1 plus the length of that text. |
| `ImageFiles.ProbeInjective` | amazon_scrappy.py:45-48 | The probe never tries the same path twice. |
| `ImageFiles.ProbedSetStep` | amazon_scrappy.py:47-49 | Each probe step adds one path that was not tried before. |
| `ImageFiles.FreeIndexFrom` | amazon_scrappy.py:46-49 | The probe terminates for every finite set of existing paths. It stops at the first free candidate, and every candidate before it exists. |
| `ImageFiles.ChosenPath` | amazon_scrappy.py:43-49 | The path the probe settles on does not exist yet. It is the joined path whenever that path is free. |
| `ImageFiles.FreeIndexUnique` | amazon_scrappy.py:46-49 | The probe result is exactly the least step whose path is free. |
| `ImageFiles.ChosenPathFree` | amazon_scrappy.py:43-49 | The chosen path does not exist yet. It is the un-suffixed `imagenes/<stem>.jpg` exactly when that path is free. |
| `ImageFiles.RepeatedSaves` | amazon_scrappy.py:43-49 | Saving under the same stem again and again gives the un-suffixed name first, then `_1`, then `_2`, and so on. |
| `ImageFiles.ProbeShape` | amazon_scrappy.py:43-48 | The k-th candidate is `imagenes/<stem>_<k>.jpg`. For an empty or all-dot stem it is `imagenes/<stem>.jpg_<k>`, because splitext finds no extension there. |
| `ImageFiles.SanitizedProbeShape` | amazon_scrappy.py:41-48 | For any product title, the suffixed candidates are `imagenes/<stem>_<k>.jpg`, or `imagenes/<stem>.jpg_<k>` when the sanitised stem is empty or all dots. |
| `ImageFiles.EmptyTitleProbe` | amazon_scrappy.py:41-48 | When the title sanitises to an empty stem, the first suffixed path is `imagenes/.jpg_1`. |
| `ImageFiles.UniquePath` | amazon_scrappy.py:43-49 | The while loop returns a path that does not exist. It is the least free candidate. |
| `ImageFiles.SaveImage` | amazon_scrappy.py:37-57 | A path is returned exactly when the status is 200. It is the free path chosen for the sanitised name, and only in that case is it added to the existing files. |
| `SearchResults.SearchUrl` | amazon_scrappy.py:78 | The URL is `https://www.amazon.com/s?k=` followed by the query exactly as given. |
| `SearchResults.SearchUrlInjective` | amazon_scrappy.py:78 | The f-string of line 78 is injective in the query. This is a statement about the string built, not about the bytes sent after the HTTP client re-quotes the URL. |
| `SearchResults.NormalizeLink` | amazon_scrappy.py:86-87 | An href starting with '/' becomes `https://www.amazon.com` followed by the href. Any other href, the empty one included, is returned unchanged. |
| `SearchResults.NormalizeLinkIdempotent` | amazon_scrappy.py:86-87 | Normalising twice equals normalising once, and no normalised link starts with '/'. |
| `SearchResults.Harvested` | amazon_scrappy.py:82-90 | There is one link per matched href, so no matches give no links. |
| `SearchResults.HarvestedIdempotent` | amazon_scrappy.py:82-90 | Harvesting the harvested links again changes nothing. |
| `SearchResults.GetSearchResults` | amazon_scrappy.py:82-90 | The loop keeps length and order. A '/'-rooted href gets `https://www.amazon.com` prefixed, and every other href is unchanged. |
| `ProductPage.GetProductInfoAsWritten` | amazon_scrappy.py:24-27 | The call fails exactly when the landing image has no src. Otherwise it agrees with `GetProductInfo`. |
| `ProductPage.MissingSrcRaises` | amazon_scrappy.py:24-27 | There is a concrete page on which the lookups as written raise. |
| `ProductPage.GetProductInfo` | amazon_scrappy.py:19-34 | The title is the sentinel exactly when productTitle is absent or its text is the sentinel. The image URL is None exactly when no landingImage src is found. The price is the sentinel exactly when span.a-offscreen is absent or its text is the sentinel. Any text or src that is found is returned as it is. |
| `ProductPage.FieldsIndependent` | amazon_scrappy.py:19-34 | Each field depends on its own lookup only. |
| `Dataset.SaveToExcel` | amazon_scrappy.py:64-68 | With no file the result is the new rows. Otherwise it is the existing rows followed by the new rows, and its size is the sum of the two. |
| `Dataset.MergeTwice` | amazon_scrappy.py:64-68 | Merging A and then B equals merging A ++ B. |
| `Dataset.AfterRunsAppends` | amazon_scrappy.py:64-68 | Repeated runs append every batch in order, with no deduplication. |
| `Dataset.AfterRunsCount` | amazon_scrappy.py:64-68 | N runs of K rows each add N×K rows. |
| `Scraper.Truthy` | amazon_scrappy.py:117 | An image URL is truthy exactly when it is neither None nor the empty string. |
| `Scraper.FirstLinks` | amazon_scrappy.py:104 | The links visited are the first min(10, n) harvested links: a prefix of them, all of them when there are 10 or fewer. |
| `Scraper.RowFor` | amazon_scrappy.py:105-115 | A link gives no row exactly when its title is the sentinel. Otherwise it gives exactly one row holding the run's date, the link, and that page's own title, price and image URL. |
| `Scraper.KeptRows` | amazon_scrappy.py:104-115 | There are no more rows than links. Every row has a found title, the run's date and a visited URL, and it is exactly the row its own link gives. So a link without a title contributes nothing. |
| `Scraper.KeptRowsAppend` | amazon_scrappy.py:104-115 | Rows are kept link by link in link order: the rows for a ++ b are those for a followed by those for b. |
| `Scraper.KeptRowsComplete` | amazon_scrappy.py:107-115 | Every link whose title was found contributes its row. |
| `Scraper.ImageSaved` | amazon_scrappy.py:107-118 | An image is saved only for a link whose title was found and whose image URL is truthy. |
| `Scraper.SaveStep` | amazon_scrappy.py:117-118 | One link adds at most one file, the path the probe chose for its sanitised title. It adds exactly one when its image is saved, and removes none. |
| `Scraper.FilesAfter` | amazon_scrappy.py:103-118 | The image files after visiting the links include every file there before. |
| `Scraper.FilesAfterCount` | amazon_scrappy.py:117-118 | Images are only added. Each successful save adds one new file and no file is overwritten. |
| `Scraper.NoKeptRowsNoImages` | amazon_scrappy.py:107-118 | When no title was found, no image is written. |
| `Scraper.ThreeLinkRows` | amazon_scrappy.py:104-115 | In the three-link scenario the kept rows are the first link's full row and the third link's row without an image URL. |
| `Scraper.ThreeLinkSaves` | amazon_scrappy.py:107-118 | In the three-link scenario only the first link's image is saved. |
| `Scraper.ThreeLinkScenario` | amazon_scrappy.py:102-119 | Take three links: one complete, one without a title, one without an image. Two rows are kept and exactly one image file is written. |
| `Scraper.VisitLink` | amazon_scrappy.py:105-118 | One iteration gives that link's row and the files after its image save. |
| `Scraper.VisitStep` | amazon_scrappy.py:103-118 | Visiting one more link appends its row and applies its image save. |
| `Scraper.VisitLinks` | amazon_scrappy.py:103-119 | The loop visits the links in order. It produces the kept rows and the image files that the specification functions give. |
| `Scraper.Run` | amazon_scrappy.py:98-133 | An empty query does nothing. Zero links visit nothing and give "no results". Otherwise the first ≤10 links are visited. No kept row means "no valid products" and leaves the dataset unchanged. Kept rows (1 to 10) are merged after the existing rows. |

## Findings

| source | as written | input that shows it | evidently intended | confidence | as-written member | corrected member |
|---|---|---|---|---|---|---|
| amazon_scrappy.py:24-27 | `soup.find(id='landingImage')['src']` raises KeyError when the element has no `src` attribute, and `except (AttributeError, TypeError)` does not catch it, so the whole run stops | a product page whose `landingImage` element has no `src` | `imagen_url = None`, like a missing element | high, not executed | `ProductPage.GetProductInfoAsWritten` (`ProductPage.MissingSrcRaises`) | `ProductPage.GetProductInfo` |

## Left out

- HTTP requests are left out: the request headers, the fetching, and exceptions from `requests.get`. They are network I/O, and responses are inputs. A failed product-page fetch is not caught by the code, so there is no "skip this link" path to model.
- HTML parsing and CSS selector semantics are left out because they belong to BeautifulSoup and lxml. Each lookup's result is an input, and `get_text(strip=True)` is treated as already applied to the text.
- Reading and writing the Excel file through pandas is left out. It is a foreign library plus file I/O. Reading back can turn None into NaN and change column types, and the model keeps rows exactly as written. The code checks no columns, so no schema-mismatch error is modelled.
- Streaming the image body in 1024-byte chunks and `os.makedirs` are left out because they are filesystem effects. A successful save is modelled as its path now existing.
- Scraper.Run: it is built on the corrected lookup `GetProductInfo`. As written, a product page whose landingImage has no `src` raises KeyError at line 105. The script then stops, and Streamlit shows the KeyError instead of either of the app's messages. The images already saved for earlier links stay on disk, and the dataset is not written. The model instead keeps that row without an image URL and goes on.
- SearchResults.SearchUrlInjective: this is about the URL string only. The HTTP client percent-encodes the URL and drops any `#` fragment, so different queries can send the same request.
- Paths follow POSIX `os.path` (separator '/'). Windows joining and splitting are not modelled.
- `datetime.now()` is read once per kept record in the code. The model takes one date for the whole run, so it does not capture a run that crosses midnight.
- The Streamlit calls are presentation only and are left out. The model keeps the decisions they show: which message appears and which rows are displayed.
- The records hold the image URL, not the local path, and the return value of `save_image` is discarded by the caller. The model does the same.

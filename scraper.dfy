/**
 * The top level of the app: for a non-empty query, harvest the product links, visit at
 * most the first ten, keep a row for every product whose title was found, save its
 * image when it has an image URL, and merge the kept rows into the dataset.
 *
 * The network is reduced to functions of the URL asked for: the hrefs the result-page
 * selector matches, the page a product URL yields, and the status an image URL answers
 * with. The filesystem is the set of existing image paths and the dataset file's rows.
 */
module Scraper {
  import opened Wrappers
  import opened ImageFiles
  import opened SearchResults
  import opened ProductPage
  import opened Dataset

  const MaxProducts := 10

  /** What the app shows: nothing asked, no results, no valid products, or the saved rows. */
  datatype Outcome = NoQuery | NoResults | NoValidProducts | Saved(records: seq<Row>, fileName: string)

  /** Python truthiness of `image_url`: present and not the empty string. */
  predicate Truthy(s: Option<string>)
    ensures Truthy(s) <==> s != None && s != Some("")
  {
    s.Some? && s.value != ""
  }

  /** `product_urls[:10]`. */
  function FirstLinks(links: seq<string>): (batch: seq<string>)
    ensures |batch| <= MaxProducts
    ensures batch <= links
    ensures |links| <= MaxProducts ==> batch == links
    ensures |batch| == if |links| < MaxProducts then |links| else MaxProducts
  {
    if |links| <= MaxProducts then links else links[..MaxProducts]
  }

  /** The row one link contributes: none when its title is the sentinel. */
  function RowFor(url: string, pages: string -> Page, date: string): (rows: seq<Row>)
    ensures |rows| <= 1
    ensures rows == [] <==> GetProductInfo(pages(url)).title == TitleNotFound
    ensures forall r :: r in rows ==> r.productUrl == url && r.date == date
    ensures forall r :: r in rows ==> var info := GetProductInfo(pages(url));
      r.title == info.title && r.price == info.price && r.imageUrl == info.imageUrl
  {
    var info := GetProductInfo(pages(url));
    if info.title != TitleNotFound then [Row(date, info.title, info.price, info.imageUrl, url)] else []
  }

  /** The rows kept for the visited links, in link order. */
  function KeptRows(urls: seq<string>, pages: string -> Page, date: string): (rows: seq<Row>)
    ensures |rows| <= |urls|
    ensures forall r :: r in rows ==> r.title != TitleNotFound && r.date == date && r.productUrl in urls
    ensures forall r :: r in rows ==> RowFor(r.productUrl, pages, date) == [r]
    decreases |urls|
  {
    if urls == [] then []
    else
      var prefix := urls[..|urls| - 1];
      assert forall u :: u in prefix ==> u in urls;
      KeptRows(prefix, pages, date) + RowFor(urls[|urls| - 1], pages, date)
  }

  /** Keeping is done link by link: the rows of a + b are those of a followed by those of b. */
  lemma {:induction false} KeptRowsAppend(a: seq<string>, b: seq<string>, pages: string -> Page, date: string)
    ensures KeptRows(a + b, pages, date) == KeptRows(a, pages, date) + KeptRows(b, pages, date)
    decreases |b|
  {
    if b == [] {
      assert a + b == a;
    } else {
      var b', last := b[..|b| - 1], b[|b| - 1];
      assert (a + b)[..|a + b| - 1] == a + b';
      assert (a + b)[|a + b| - 1] == last;
      var ra, rb', rl := KeptRows(a, pages, date), KeptRows(b', pages, date), RowFor(last, pages, date);
      assert KeptRows(a + b, pages, date) == KeptRows(a + b', pages, date) + rl;
      assert KeptRows(b, pages, date) == rb' + rl;
      KeptRowsAppend(a, b', pages, date);
      assert (ra + rb') + rl == ra + (rb' + rl);
    }
  }

  /** Every link whose title was found has its row among the kept ones. */
  lemma KeptRowsComplete(urls: seq<string>, i: nat, pages: string -> Page, date: string)
    requires i < |urls|
    requires GetProductInfo(pages(urls[i])).title != TitleNotFound
    ensures var info := GetProductInfo(pages(urls[i]));
      Row(date, info.title, info.price, info.imageUrl, urls[i]) in KeptRows(urls, pages, date)
  {
    assert urls == urls[..i] + ([urls[i]] + urls[i + 1..]);
    KeptRowsAppend(urls[..i], [urls[i]] + urls[i + 1..], pages, date);
    KeptRowsAppend([urls[i]], urls[i + 1..], pages, date);
    assert KeptRows([urls[i]], pages, date) == RowFor(urls[i], pages, date);
  }

  /** Whether visiting this link writes an image file. */
  predicate ImageSaved(url: string, pages: string -> Page, imageStatus: string -> int)
    ensures ImageSaved(url, pages, imageStatus) ==>
      GetProductInfo(pages(url)).title != TitleNotFound && Truthy(GetProductInfo(pages(url)).imageUrl)
  {
    var info := GetProductInfo(pages(url));
    info.title != TitleNotFound && Truthy(info.imageUrl) && imageStatus(info.imageUrl.value) == 200
  }

  /** The image files after visiting one more link. */
  function SaveStep(files: set<string>, url: string, pages: string -> Page, imageStatus: string -> int): (files': set<string>)
    ensures files <= files'
    ensures |files'| == |files| + (if ImageSaved(url, pages, imageStatus) then 1 else 0)
    ensures files' - files <= {ChosenPath(files, Sanitize(GetProductInfo(pages(url)).title))}
  {
    if ImageSaved(url, pages, imageStatus) then
      files + {ChosenPath(files, Sanitize(GetProductInfo(pages(url)).title))}
    else files
  }

  /** The image files after visiting the links in order. */
  function FilesAfter(urls: seq<string>, pages: string -> Page, imageStatus: string -> int, files: set<string>): (files': set<string>)
    ensures files <= files'
    decreases |urls|
  {
    if urls == [] then files
    else SaveStep(FilesAfter(urls[..|urls| - 1], pages, imageStatus, files), urls[|urls| - 1], pages, imageStatus)
  }

  function SavedCount(urls: seq<string>, pages: string -> Page, imageStatus: string -> int): nat
    decreases |urls|
  {
    if urls == [] then 0
    else SavedCount(urls[..|urls| - 1], pages, imageStatus) + (if ImageSaved(urls[|urls| - 1], pages, imageStatus) then 1 else 0)
  }

  /** Images are only added, and every successful save adds a new file: none is overwritten. */
  lemma {:induction false} FilesAfterCount(urls: seq<string>, pages: string -> Page, imageStatus: string -> int, files: set<string>)
    ensures files <= FilesAfter(urls, pages, imageStatus, files)
    ensures |FilesAfter(urls, pages, imageStatus, files)| == |files| + SavedCount(urls, pages, imageStatus)
    decreases |urls|
  {
    if urls != [] {
      var prefix, last := urls[..|urls| - 1], urls[|urls| - 1];
      FilesAfterCount(prefix, pages, imageStatus, files);
      var f := FilesAfter(prefix, pages, imageStatus, files);
      ChosenPathFree(f, Sanitize(GetProductInfo(pages(last)).title));
    }
  }

  /** Links whose titles were all missing leave the image folder as it was. */
  lemma {:induction false} NoKeptRowsNoImages(urls: seq<string>, pages: string -> Page, imageStatus: string -> int, files: set<string>, date: string)
    requires KeptRows(urls, pages, date) == []
    ensures FilesAfter(urls, pages, imageStatus, files) == files
    decreases |urls|
  {
    if urls != [] {
      NoKeptRowsNoImages(urls[..|urls| - 1], pages, imageStatus, files, date);
    }
  }

  /** The rows kept in the three-link scenario below. */
  lemma ThreeLinkRows(l1: string, l2: string, l3: string, pages: string -> Page,
                      img: string, t3: string, p3: Option<string>, date: string)
    requires pages(l1) == Page(Some("USB-C Cable 2m"), LandingImageSrc(img), Some("$9.99"))
    requires pages(l2).titleText.None?
    requires pages(l3) == Page(Some(t3), NoLandingImage, p3) && t3 != TitleNotFound
    ensures KeptRows([l1, l2, l3], pages, date) ==
      [Row(date, "USB-C Cable 2m", "$9.99", Some(img), l1), Row(date, t3, GetProductInfo(pages(l3)).price, None, l3)]
  {
    assert "USB-C Cable 2m"[0] != TitleNotFound[0];
    assert RowFor(l1, pages, date) == [Row(date, "USB-C Cable 2m", "$9.99", Some(img), l1)];
    assert RowFor(l2, pages, date) == [];
    assert [l1, l2, l3][..2] == [l1, l2];
    assert [l1, l2][..1] == [l1];
    assert [l1][..0] == [];
    assert KeptRows([l1], pages, date) == RowFor(l1, pages, date);
    assert KeptRows([l1, l2], pages, date) == RowFor(l1, pages, date);
  }

  /** The image saves in the three-link scenario below: only the first link's. */
  lemma ThreeLinkSaves(l1: string, l2: string, l3: string, pages: string -> Page, imageStatus: string -> int,
                       img: string, t3: string, p3: Option<string>)
    requires pages(l1) == Page(Some("USB-C Cable 2m"), LandingImageSrc(img), Some("$9.99"))
    requires pages(l2).titleText.None?
    requires pages(l3) == Page(Some(t3), NoLandingImage, p3) && t3 != TitleNotFound
    requires img != "" && imageStatus(img) == 200
    ensures SavedCount([l1, l2, l3], pages, imageStatus) == 1
  {
    assert "USB-C Cable 2m"[0] != TitleNotFound[0];
    assert [l1, l2, l3][..2] == [l1, l2];
    assert [l1, l2][..1] == [l1];
    assert [l1][..0] == [];
    assert ImageSaved(l1, pages, imageStatus);
    assert !ImageSaved(l2, pages, imageStatus);
    assert !ImageSaved(l3, pages, imageStatus);
    assert SavedCount([l1], pages, imageStatus) == 1;
    assert SavedCount([l1, l2], pages, imageStatus) == 1;
  }

  /**
   * Three links: the first with title, price and image, the second without a title, the
   * third with a title and no image. Two rows are kept, and one image file is written.
   */
  lemma ThreeLinkScenario(l1: string, l2: string, l3: string, pages: string -> Page, imageStatus: string -> int,
                          img: string, t3: string, p3: Option<string>, files: set<string>, date: string)
    requires pages(l1) == Page(Some("USB-C Cable 2m"), LandingImageSrc(img), Some("$9.99"))
    requires pages(l2).titleText.None?
    requires pages(l3) == Page(Some(t3), NoLandingImage, p3) && t3 != TitleNotFound
    requires img != "" && imageStatus(img) == 200
    ensures KeptRows([l1, l2, l3], pages, date) ==
      [Row(date, "USB-C Cable 2m", "$9.99", Some(img), l1), Row(date, t3, GetProductInfo(pages(l3)).price, None, l3)]
    ensures |FilesAfter([l1, l2, l3], pages, imageStatus, files)| == |files| + 1
  {
    ThreeLinkRows(l1, l2, l3, pages, img, t3, p3, date);
    ThreeLinkSaves(l1, l2, l3, pages, imageStatus, img, t3, p3);
    FilesAfterCount([l1, l2, l3], pages, imageStatus, files);
  }

  /**
   * Lines 105-118, one link: extract its fields, keep a row when the title was found,
   * and save its image when the row is kept and has a truthy image URL.
   */
  method VisitLink(url: string, pages: string -> Page, imageStatus: string -> int,
                   date: string, files: set<string>)
    returns (row: seq<Row>, files': set<string>)
    ensures row == RowFor(url, pages, date)
    ensures files' == SaveStep(files, url, pages, imageStatus)
  {
    row, files' := [], files;
    var info := GetProductInfo(pages(url));
    if info.title != TitleNotFound {
      row := [Row(date, info.title, info.price, info.imageUrl, url)];
      if Truthy(info.imageUrl) {
        var saved, f := SaveImage(imageStatus(info.imageUrl.value), info.title, files);
        files' := f;
      }
    }
  }

  /** Visiting one more link adds that link's row and that link's image save. */
  lemma VisitStep(batch: seq<string>, i: nat, pages: string -> Page, imageStatus: string -> int,
                  date: string, files: set<string>)
    requires i < |batch|
    ensures batch[..i + 1] == batch[..i] + [batch[i]]
    ensures KeptRows(batch[..i + 1], pages, date) == KeptRows(batch[..i], pages, date) + RowFor(batch[i], pages, date)
    ensures FilesAfter(batch[..i + 1], pages, imageStatus, files)
         == SaveStep(FilesAfter(batch[..i], pages, imageStatus, files), batch[i], pages, imageStatus)
  {
    assert batch[..i + 1][..i] == batch[..i];
  }

  /**
   * Lines 103-119: visit each link in order, keep the titled ones, save their images.
   * Returns the kept rows, the links visited and the image files afterwards.
   */
  method VisitLinks(batch: seq<string>, pages: string -> Page, imageStatus: string -> int,
                    date: string, files: set<string>)
    returns (allData: seq<Row>, visited: seq<string>, files': set<string>)
    ensures visited == batch
    ensures allData == KeptRows(batch, pages, date)
    ensures files' == FilesAfter(batch, pages, imageStatus, files)
  {
    allData, visited, files' := [], [], files;
    var i := 0;
    while i < |batch|
      invariant 0 <= i <= |batch|
      invariant visited == batch[..i]
      invariant allData == KeptRows(batch[..i], pages, date)
      invariant files' == FilesAfter(batch[..i], pages, imageStatus, files)
    {
      var url := batch[i];
      VisitStep(batch, i, pages, imageStatus, date, files);
      visited := visited + [url];
      var row;
      row, files' := VisitLink(url, pages, imageStatus, date, files');
      allData := allData + row;
      i := i + 1;
    }
    assert batch[..|batch|] == batch;
  }

  /**
   * Lines 98-133. Returns what is shown, the product URLs visited (in order), the image
   * files afterwards and the dataset file afterwards (None when there is no file).
   */
  method Run(query: string, matches: string -> seq<string>, pages: string -> Page, imageStatus: string -> int,
             date: string, files: set<string>, dataset: Option<seq<Row>>)
    returns (outcome: Outcome, visited: seq<string>, files': set<string>, dataset': Option<seq<Row>>)
    ensures query == "" ==> outcome == NoQuery && visited == [] && files' == files && dataset' == dataset
    ensures query != "" ==>
      var links := Harvested(matches(SearchUrl(query)));
      var batch := FirstLinks(links);
      var kept := KeptRows(batch, pages, date);
      && visited == batch
      && files' == FilesAfter(batch, pages, imageStatus, files)
      && (links == [] ==> outcome == NoResults)
      && (links != [] && kept == [] ==> outcome == NoValidProducts && dataset' == dataset)
      && (kept != [] ==> outcome == Saved(kept, FileName) && dataset' == Some(SaveToExcel(dataset, kept)))
    ensures visited == [] ==> files' == files && dataset' == dataset
    ensures outcome.Saved? ==> 1 <= |outcome.records| <= MaxProducts
  {
    outcome, visited, files', dataset' := NoQuery, [], files, dataset;
    if query == "" {
      return;
    }
    var productUrls := GetSearchResults(matches(SearchUrl(query)));
    if productUrls == [] {
      outcome := NoResults;
      return;
    }
    var allData;
    allData, visited, files' := VisitLinks(FirstLinks(productUrls), pages, imageStatus, date, files);
    if allData != [] {
      dataset' := Some(SaveToExcel(dataset, allData));
      outcome := Saved(allData, FileName);
    } else {
      outcome := NoValidProducts;
    }
  }
}

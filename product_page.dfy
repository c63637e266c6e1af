/**
 * get_product_info: three independent lookups on the parsed product page, each with its
 * own fallback. The page is reduced to what the lookups can find; text arrives already
 * whitespace-stripped, as get_text(strip=True) returns it.
 */
module ProductPage {
  import opened Wrappers

  const TitleNotFound := "No se encontró el título"
  const PriceNotFound := "No price found"

  /** The element with id landingImage: missing, present without src, or present with src. */
  datatype LandingImage = NoLandingImage | LandingImageWithoutSrc | LandingImageSrc(src: string)

  /** What the three lookups see: the productTitle text, the landing image, the first span.a-offscreen text. */
  datatype Page = Page(titleText: Option<string>, landingImage: LandingImage, offscreenPrice: Option<string>)

  datatype ProductInfo = ProductInfo(title: string, imageUrl: Option<string>, price: string)

  /** The exception the Python code lets escape. */
  datatype Exception = KeyError(key: string)

  /**
   * The lookups as written: the image lookup catches AttributeError and TypeError only,
   * so an image element without src raises KeyError out of the whole call.
   */
  function GetProductInfoAsWritten(page: Page): (r: Result<ProductInfo, Exception>)
    ensures r.Failure? <==> page.landingImage.LandingImageWithoutSrc?
    ensures r.Success? ==> r.value == GetProductInfo(page)
  {
    if page.landingImage.LandingImageWithoutSrc? then Failure(KeyError("src"))
    else Success(GetProductInfo(page))
  }

  /** A page whose landing image has no src makes the as-written lookups fail altogether. */
  lemma MissingSrcRaises()
    ensures GetProductInfoAsWritten(Page(Some("Cable"), LandingImageWithoutSrc, Some("$1"))).Failure?
  {
  }

  /** The lookups with a missing src treated like a missing element (no image URL). */
  function GetProductInfo(page: Page): (info: ProductInfo)
    ensures info.title == TitleNotFound <==> page.titleText.None? || page.titleText == Some(TitleNotFound)
    ensures info.imageUrl.None? <==> !page.landingImage.LandingImageSrc?
    ensures page.landingImage.LandingImageSrc? ==> info.imageUrl == Some(page.landingImage.src)
    ensures info.price == PriceNotFound <==> page.offscreenPrice.None? || page.offscreenPrice == Some(PriceNotFound)
    ensures page.titleText.Some? ==> info.title == page.titleText.value
    ensures page.offscreenPrice.Some? ==> info.price == page.offscreenPrice.value
  {
    var title := match page.titleText
      case Some(t) => t
      case None => TitleNotFound;
    var imageUrl := match page.landingImage
      case LandingImageSrc(src) => Some(src)
      case _ => None;
    var price := match page.offscreenPrice
      case Some(p) => p
      case None => PriceNotFound;
    ProductInfo(title, imageUrl, price)
  }

  /** Each field depends on its own lookup only: one field missing never changes another. */
  lemma FieldsIndependent(p: Page, q: Page)
    ensures p.titleText == q.titleText ==> GetProductInfo(p).title == GetProductInfo(q).title
    ensures p.landingImage == q.landingImage ==> GetProductInfo(p).imageUrl == GetProductInfo(q).imageUrl
    ensures p.offscreenPrice == q.offscreenPrice ==> GetProductInfo(p).price == GetProductInfo(q).price
  {
  }
}

/**
 * The parts of a fetched HTML page that the scraper looks at, as the CSS
 * selectors find them; the selectors and the HTML parser are not modelled.
 */
module Documents {
  import opened Wrappers

  /**
   * An `<a>` element, by the values of its `href` attribute. `[]` stands for
   * a link without `href`, which the model skips; the HTML library itself
   * lists such an attribute as `[None]`.
   */
  datatype Link = Link(href: seq<string>)

  /**
   * The article element of an item page, by its `.string`: `None` when the
   * HTML library's `.string` is `None`.
   */
  datatype Element = Element(str: Option<string>)

  /**
   * A parsed page: the item links the catalog selector finds, in document
   * order; the last-page link of the pagination control, if any; and the
   * article element, if any.
   */
  datatype Document = Document(itemLinks: seq<Link>, lastPageLink: Option<Link>,
                               article: Option<Element>)
}

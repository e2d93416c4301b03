/** Parsed HTML as the scrapers' selectors see it. Which tags the selectors
    pick (`dcr-` class patterns, `rel='author'`, the article-body container)
    is decided by the parser; a page here is what they found. */
module Html {
  import opened Base

  /** A `<time>` tag; `datetime` is its attribute, when it has one. */
  datatype TimeTag = TimeTag(datetime: Option<string>)

  /** An entry's `<footer>` and the first `<time>` inside it. */
  datatype Footer = Footer(time: Option<TimeTag>)

  /** One `<li>` of a section: `link` is the `href` of its first `<a>` that
      carries an `href` attribute (possibly the empty string). */
  datatype ListItem = ListItem(link: Option<string>, footer: Option<Footer>)

  /** A `<section>` with its `id` attribute and its `<li>` descendants, in
      document order. */
  datatype Section = Section(id: Option<string>, items: seq<ListItem>)

  /** The first `<div>` with a `dcr-` class: its class list and stripped text. */
  datatype ClassedDiv = ClassedDiv(classes: seq<string>, text: string)

  /** The `<a rel="author">` tag: its stripped text and its `href`, if any. */
  datatype AuthorLink = AuthorLink(text: string, href: Option<string>)

  /** What the article-page selectors find: the stripped text of the first
      `<h1>` with a `dcr-` class, the first `<div>` with a `dcr-` class, the
      stripped texts of the `dcr-` paragraphs inside the article-body
      container (when the container exists), and the author link. */
  datatype ArticleView = ArticleView(
    heading: Option<string>,
    firstDiv: Option<ClassedDiv>,
    body: Option<seq<string>>,
    authorLink: Option<AuthorLink>)

  /** A parsed page: its `<section>` elements in document order (as
      `find_all('section')` lists them) and its article view. */
  datatype Document = Document(sections: seq<Section>, article: ArticleView)
}

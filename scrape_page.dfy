/** The metadata-extraction routine that the scrape service evaluates inside
    the rendered page: meta lookup, favicon resolution, and the title and
    description priorities. The page is given as an abstract document. */
module ScrapePage {
  import opened Basics

  /** The parts of a rendered page the routine reads.
      `metaByName[n]` is the first `<meta name="n">` element, given by its
      `content` attribute (`None` when the attribute is absent);
      `metaByProperty` likewise for `<meta property="...">`, and
      `linkByRel[r]` is the `href` attribute of the first `<link rel="r">`.
      `protocol` (with its ':'), `origin` and `href` come from
      `window.location`. */
  datatype Document = Document(
    metaByName: map<string, Option<string>>,
    metaByProperty: map<string, Option<string>>,
    linkByRel: map<string, Option<string>>,
    title: string,
    protocol: string,
    origin: string,
    href: string,
    characterSet: string,
    lang: string)

  datatype Metadata = Metadata(
    title: string,
    description: string,
    keywords: string,
    url: string,
    favicon: string,
    ogTitle: string,
    ogDescription: string,
    ogImage: string,
    ogType: string,
    ogUrl: string,
    twitterCard: string,
    twitterTitle: string,
    twitterDescription: string,
    twitterImage: string,
    author: string,
    publisher: string,
    charset: string,
    language: string,
    robots: string)

  const DEFAULT_FAVICON: string := "/favicon.ico"

  /** `element?.getAttribute(...) || ''` for an element found or not. */
  function AttributeText(element: Option<Option<string>>): string {
    match element
    case Some(Some(v)) => v
    case _ => ""
  }

  /** getMetaContent(name, property): the `content` of the element matched
      by name; only when no element has that name, and a property is given,
      the `content` of the element matched by property; else "". */
  function GetMetaContent(doc: Document, name: string, property: string): (r: string)
    ensures name in doc.metaByName ==> r == AttributeText(Some(doc.metaByName[name]))
    ensures name !in doc.metaByName && property != "" && property in doc.metaByProperty ==>
              r == AttributeText(Some(doc.metaByProperty[property]))
    ensures name !in doc.metaByName && (property == "" || property !in doc.metaByProperty) ==> r == ""
  {
    var element :=
      if name in doc.metaByName then Some(doc.metaByName[name])
      else if property != "" && property in doc.metaByProperty then Some(doc.metaByProperty[property])
      else None;
    AttributeText(element)
  }

  /** The first non-empty string of a list, or "" when there is none: the
      meaning of a chain `a || b || c || ''`. */
  function FirstNonEmpty(candidates: seq<string>): (r: string)
    ensures r == "" <==> forall i :: 0 <= i < |candidates| ==> candidates[i] == ""
    ensures r != "" ==> exists i :: 0 <= i < |candidates| && candidates[i] == r &&
                          forall j :: 0 <= j < i ==> candidates[j] == ""
  {
    if candidates == [] then ""
    else if candidates[0] != "" then candidates[0]
    else
      var rest := FirstNonEmpty(candidates[1..]);
      assert forall i :: 1 <= i < |candidates| ==> candidates[i] == candidates[1..][i - 1];
      if rest != "" then
        var k :| 0 <= k < |candidates[1..]| && candidates[1..][k] == rest &&
                 forall j :: 0 <= j < k ==> candidates[1..][j] == "";
        assert candidates[k + 1] == rest;
        assert forall j :: 0 <= j < k + 1 ==> candidates[j] == "" by {
          forall j | 0 <= j < k + 1 ensures candidates[j] == "" {
            if j > 0 { assert candidates[j] == candidates[1..][j - 1]; }
          }
        }
        rest
      else rest
  }

  /** `a || b || c || ''` picks the first non-empty of the three. */
  lemma OrChainIsFirstNonEmpty(a: string, b: string, c: string)
    ensures OrElse(a, OrElse(b, OrElse(c, ""))) == FirstNonEmpty([a, b, c])
  {
    assert [a, b, c][1..] == [b, c];
    assert [b, c][1..] == [c];
    assert [c][1..] == [];
    if a == "" {
      assert FirstNonEmpty([a, b, c]) == FirstNonEmpty([b, c]);
      if b == "" {
        assert FirstNonEmpty([b, c]) == FirstNonEmpty([c]);
        if c == "" {
          assert FirstNonEmpty([c]) == FirstNonEmpty([]);
        }
      }
    }
  }

  /** getTitle: og:title, else twitter:title, else document.title, else "". */
  function GetTitle(doc: Document): (r: string)
    ensures r == FirstNonEmpty([GetMetaContent(doc, "", "og:title"),
                                GetMetaContent(doc, "twitter:title", ""),
                                doc.title])
  {
    var ogTitle := GetMetaContent(doc, "", "og:title");
    var twitterTitle := GetMetaContent(doc, "twitter:title", "");
    OrChainIsFirstNonEmpty(ogTitle, twitterTitle, doc.title);
    OrElse(ogTitle, OrElse(twitterTitle, OrElse(doc.title, "")))
  }

  /** getDescription: og:description, else twitter:description, else the
      description meta tag, else "". */
  function GetDescription(doc: Document): (r: string)
    ensures r == FirstNonEmpty([GetMetaContent(doc, "", "og:description"),
                                GetMetaContent(doc, "twitter:description", ""),
                                GetMetaContent(doc, "description", "")])
  {
    var ogDesc := GetMetaContent(doc, "", "og:description");
    var twitterDesc := GetMetaContent(doc, "twitter:description", "");
    var metaDesc := GetMetaContent(doc, "description", "");
    OrChainIsFirstNonEmpty(ogDesc, twitterDesc, metaDesc);
    OrElse(ogDesc, OrElse(twitterDesc, OrElse(metaDesc, "")))
  }

  /** The first icon link of the page, tried as rel "icon", then "shortcut
      icon", then "apple-touch-icon". */
  function IconLink(doc: Document): (link: Option<Option<string>>)
    ensures "icon" in doc.linkByRel ==> link == Some(doc.linkByRel["icon"])
    ensures "icon" !in doc.linkByRel && "shortcut icon" in doc.linkByRel ==>
              link == Some(doc.linkByRel["shortcut icon"])
    ensures ("icon" !in doc.linkByRel && "shortcut icon" !in doc.linkByRel &&
             "apple-touch-icon" in doc.linkByRel) ==> link == Some(doc.linkByRel["apple-touch-icon"])
    ensures link.None? <==> "icon" !in doc.linkByRel && "shortcut icon" !in doc.linkByRel &&
                            "apple-touch-icon" !in doc.linkByRel
  {
    if "icon" in doc.linkByRel then Some(doc.linkByRel["icon"])
    else if "shortcut icon" in doc.linkByRel then Some(doc.linkByRel["shortcut icon"])
    else if "apple-touch-icon" in doc.linkByRel then Some(doc.linkByRel["apple-touch-icon"])
    else None
  }

  /** The favicon href before resolution: the chosen link's href, or
      "/favicon.ico" when there is no link or its href is empty. */
  function IconHref(doc: Document): (href: string)
    ensures href != ""
    ensures IconLink(doc).None? ==> href == DEFAULT_FAVICON
    ensures IconLink(doc).Some? && AttributeText(IconLink(doc)) != "" ==> href == AttributeText(IconLink(doc))
    ensures IconLink(doc).Some? && AttributeText(IconLink(doc)) == "" ==> href == DEFAULT_FAVICON
  {
    OrElse(AttributeText(IconLink(doc)), DEFAULT_FAVICON)
  }

  /** Resolution of an icon href against the page location. */
  function ResolveHref(href: string, protocol: string, origin: string): (r: string)
    ensures StartsWith(href, "data:") || StartsWith(href, "http") ==> r == href
    ensures StartsWith(href, "//") ==> r == protocol + href
    ensures StartsWith(href, "/") && !StartsWith(href, "//") ==> r == origin + href
    ensures !StartsWith(href, "http") && !StartsWith(href, "/") && !StartsWith(href, "data:") ==>
              r == origin + "/" + href
  {
    SlashIsNotDataOrHttp(href);
    if StartsWith(href, "data:") then href
    else if StartsWith(href, "http") then href
    else if StartsWith(href, "//") then protocol + href
    else if StartsWith(href, "/") then origin + href
    else origin + "/" + href
  }

  /** A string that differs from a prefix at some position does not start with it. */
  lemma NotPrefixAt(s: string, p: string, i: nat)
    requires i < |p| && i < |s| && s[i] != p[i]
    ensures !StartsWith(s, p)
  {
  }

  lemma SlashIsNotDataOrHttp(href: string)
    ensures StartsWith(href, "/") ==> !StartsWith(href, "data:") && !StartsWith(href, "http")
  {
    if StartsWith(href, "/") {
      NotPrefixAt(href, "data:", 0);
      NotPrefixAt(href, "http", 0);
    }
  }

  /** getFavicon */
  function GetFavicon(doc: Document): (r: string)
    ensures r == ResolveHref(IconHref(doc), doc.protocol, doc.origin)
    ensures IconLink(doc).None? ==> r == doc.origin + DEFAULT_FAVICON
  {
    assert StartsWith(DEFAULT_FAVICON, "/");
    NotPrefixAt(DEFAULT_FAVICON, "//", 1);
    ResolveHref(IconHref(doc), doc.protocol, doc.origin)
  }

  /** A protocol-relative icon on an https page keeps the page's protocol. */
  lemma ProtocolRelativeFavicon()
    ensures ResolveHref("//cdn.example.com/icon.png", "https:", "https://example.com") ==
            "https://cdn.example.com/icon.png"
  {
    assert StartsWith("//cdn.example.com/icon.png", "//");
  }

  /** The whole record the routine returns. */
  function Extract(doc: Document): (r: Metadata)
    ensures r.title == FirstNonEmpty([r.ogTitle, r.twitterTitle, doc.title])
    ensures r.description == FirstNonEmpty([r.ogDescription, r.twitterDescription,
                                            GetMetaContent(doc, "description", "")])
    ensures r.favicon != ""
    ensures r.url == doc.href
    ensures r.title == GetTitle(doc) && r.description == GetDescription(doc) && r.favicon == GetFavicon(doc)
    ensures r.ogTitle == GetMetaContent(doc, "", "og:title") &&
            r.ogDescription == GetMetaContent(doc, "", "og:description") &&
            r.ogImage == GetMetaContent(doc, "", "og:image") &&
            r.ogType == GetMetaContent(doc, "", "og:type") &&
            r.ogUrl == GetMetaContent(doc, "", "og:url")
    ensures r.twitterCard == GetMetaContent(doc, "twitter:card", "") &&
            r.twitterTitle == GetMetaContent(doc, "twitter:title", "") &&
            r.twitterDescription == GetMetaContent(doc, "twitter:description", "") &&
            r.twitterImage == GetMetaContent(doc, "twitter:image", "")
    ensures r.keywords == GetMetaContent(doc, "keywords", "") &&
            r.author == GetMetaContent(doc, "author", "") &&
            r.publisher == GetMetaContent(doc, "publisher", "") &&
            r.robots == GetMetaContent(doc, "robots", "")
    ensures r.charset == doc.characterSet && r.language == doc.lang
  {
    Metadata(
      title := GetTitle(doc),
      description := GetDescription(doc),
      keywords := OrElse(GetMetaContent(doc, "keywords", ""), ""),
      url := doc.href,
      favicon := GetFavicon(doc),
      ogTitle := OrElse(GetMetaContent(doc, "", "og:title"), ""),
      ogDescription := OrElse(GetMetaContent(doc, "", "og:description"), ""),
      ogImage := OrElse(GetMetaContent(doc, "", "og:image"), ""),
      ogType := OrElse(GetMetaContent(doc, "", "og:type"), ""),
      ogUrl := OrElse(GetMetaContent(doc, "", "og:url"), ""),
      twitterCard := OrElse(GetMetaContent(doc, "twitter:card", ""), ""),
      twitterTitle := OrElse(GetMetaContent(doc, "twitter:title", ""), ""),
      twitterDescription := OrElse(GetMetaContent(doc, "twitter:description", ""), ""),
      twitterImage := OrElse(GetMetaContent(doc, "twitter:image", ""), ""),
      author := OrElse(GetMetaContent(doc, "author", ""), ""),
      publisher := OrElse(GetMetaContent(doc, "publisher", ""), ""),
      charset := OrElse(doc.characterSet, ""),
      language := OrElse(doc.lang, ""),
      robots := OrElse(GetMetaContent(doc, "robots", ""), ""))
  }
}

/** What `NUBot.get_news` takes from the parsed notice page. The HTML parser
    and its `.news-item a` selector are not modelled: the page arrives as
    the sequence of selected anchors, each with its visible text and its
    `href` attribute (absent when the anchor has none). */
module Extraction {
  import opened Text

  datatype Option<T> = None | Some(value: T)

  datatype Anchor = Anchor(text: String, href: Option<String>)

  /** Only the first ten selected anchors are read. */
  const MaxItems: nat := 10

  /** The site origin every link is built on. */
  const SiteRoot: String := "https://www.nu.ac.bd/"

  /** `anchors[:10]`. */
  function Top(anchors: seq<Anchor>): (r: seq<Anchor>)
    ensures |r| <= MaxItems
    ensures |r| == if |anchors| < MaxItems then |anchors| else MaxItems
    ensures r == anchors[..|r|]
  {
    if |anchors| <= MaxItems then anchors else anchors[..MaxItems]
  }

  /** How the f-string renders `news.get('href')`: the attribute text, or
      Python's `None` when the anchor has no `href`. */
  function HrefText(href: Option<String>): (r: String)
    ensures r == "None" <==> href == None || href == Some("None")
  {
    match href
    case Some(s) => s
    case None => "None"
  }

  /** The heading of one anchor: its visible text, stripped. */
  function Heading(a: Anchor): (r: String)
    ensures r == [] <==> AllSpace(a.text)
  {
    StripEmptyIff(a.text);
    Strip(a.text)
  }

  /** The link of one anchor: the site root followed by the `href` exactly
      as written, with no normalisation of absolute or rooted `href`s. */
  function Link(a: Anchor): (r: String)
    ensures StartsWith(r, SiteRoot)
    ensures r[|SiteRoot|..] == HrefText(a.href)
  {
    SiteRoot + HrefText(a.href)
  }

  /** The headings appended for `items`, in document order. */
  function Headings(items: seq<Anchor>): (r: seq<String>)
    ensures |r| == |items|
  {
    if items == [] then []
    else Headings(items[..|items| - 1]) + [Heading(items[|items| - 1])]
  }

  /** The links appended for `items`, in document order. */
  function Links(items: seq<Anchor>): (r: seq<String>)
    ensures |r| == |items|
  {
    if items == [] then []
    else Links(items[..|items| - 1]) + [Link(items[|items| - 1])]
  }

  /** Entry `i` of the headings is the stripped text of anchor `i`. */
  lemma {:induction false} HeadingsAt(items: seq<Anchor>)
    ensures forall i :: 0 <= i < |items| ==> Headings(items)[i] == Strip(items[i].text)
  {
    if items != [] {
      var n := |items| - 1;
      HeadingsAt(items[..n]);
      assert forall i :: 0 <= i < n ==> items[..n][i] == items[i];
    }
  }

  /** Entry `i` of the links is the site root followed by the `href` of
      anchor `i`. */
  lemma {:induction false} LinksAt(items: seq<Anchor>)
    ensures forall i :: 0 <= i < |items| ==> Links(items)[i] == SiteRoot + HrefText(items[i].href)
  {
    if items != [] {
      var n := |items| - 1;
      LinksAt(items[..n]);
      assert forall i :: 0 <= i < n ==> items[..n][i] == items[i];
    }
  }

  /** One pass of extraction yields two lists of equal length, at most ten,
      that are index-aligned with each other and with the page: entry `i` of
      both comes from the `i`-th selected anchor. */
  lemma ExtractionAligned(anchors: seq<Anchor>)
    ensures |Headings(Top(anchors))| == |Links(Top(anchors))| <= MaxItems
    ensures forall i :: 0 <= i < |Headings(Top(anchors))| ==>
              i < |anchors| &&
              Headings(Top(anchors))[i] == Strip(anchors[i].text) &&
              Links(Top(anchors))[i] == SiteRoot + HrefText(anchors[i].href)
  {
    HeadingsAt(Top(anchors));
    LinksAt(Top(anchors));
  }

  /** Anchors after the tenth never influence the extraction. */
  lemma ExtractionIgnoresTail(anchors: seq<Anchor>, more: seq<Anchor>)
    requires |anchors| >= MaxItems
    ensures Headings(Top(anchors + more)) == Headings(Top(anchors))
    ensures Links(Top(anchors + more)) == Links(Top(anchors))
  {
    assert Top(anchors + more) == Top(anchors);
  }

  /** Every extracted link starts with the site root. */
  lemma LinksStartWithRoot(items: seq<Anchor>)
    ensures forall l :: l in Links(items) ==> StartsWith(l, SiteRoot)
  {
    LinksAt(items);
    forall l | l in Links(items) ensures StartsWith(l, SiteRoot) {
      var i :| 0 <= i < |items| && Links(items)[i] == l;
      assert l == Link(items[i]);
    }
  }

  /** The loop's step: the heading and link of one more anchor of the list. */
  lemma ExtractionPrefixStep(items: seq<Anchor>, i: nat)
    requires i < |items|
    ensures Headings(items[..i + 1]) == Headings(items[..i]) + [Heading(items[i])]
    ensures Links(items[..i + 1]) == Links(items[..i]) + [Link(items[i])]
  {
    assert items[..i + 1] == items[..i] + [items[i]];
    ExtractionSnoc(items[..i], items[i]);
  }

  /** One more anchor appends its heading and its link, in lockstep. */
  lemma ExtractionSnoc(items: seq<Anchor>, a: Anchor)
    ensures Headings(items + [a]) == Headings(items) + [Heading(a)]
    ensures Links(items + [a]) == Links(items) + [Link(a)]
  {
    assert (items + [a])[..|items|] == items;
  }
}

/** Classification of the anchors found in the content (`isExternalLink`) and
    the per-bucket counts the two link checks filter for. */
module SeoLinks {
  import opened Wrappers
  import opened SeoText

  /** One anchor of the content. `href` is the raw attribute; `host` is the
      hostname of the URL the href resolves to against the page origin, or
      None when parsing that URL fails. */
  datatype Link = Link(href: string, host: Option<string>)

  /** How `isExternalLink` classifies a link: `true`, `false` or `null`. */
  datatype LinkClass = External | Internal | Ignored

  /** Hrefs that are counted in neither bucket: empty, in-page anchors and
      the `javascript:`, `mailto:`, `tel:` and `sms:` schemes. */
  predicate IsIgnoredHref(href: string) {
    href == [] || StartsWith(href, "#") || StartsWith(href, "javascript:")
    || StartsWith(href, "mailto:") || StartsWith(href, "tel:") || StartsWith(href, "sms:")
  }

  /** `hostname.replace(/^www\./, '')`: one leading "www." is dropped. */
  function StripWww(host: string): (r: string)
    ensures StartsWith(host, "www.") ==> host == "www." + r
    ensures !StartsWith(host, "www.") ==> r == host
  {
    if StartsWith(host, "www.") then host[4..] else host
  }

  function Classify(link: Link, currentHost: string): (c: LinkClass)
    ensures c == Ignored <==> IsIgnoredHref(link.href)
    ensures c == External <==> (!IsIgnoredHref(link.href) && link.host.Some?
                                && StripWww(link.host.value) != StripWww(currentHost))
    ensures c == Internal ==> link.host.None? || StripWww(link.host.value) == StripWww(currentHost)
  {
    if IsIgnoredHref(link.href) then Ignored
    else match link.host
      case None => Internal
      case Some(h) => if StripWww(h) != StripWww(currentHost) then External else Internal
  }

  /** The number of links in a given class: `links.filter(...).length`. */
  function CountClass(links: seq<Link>, currentHost: string, c: LinkClass): (n: nat)
    ensures n <= |links|
  {
    if links == [] then 0
    else (if Classify(links[0], currentHost) == c then 1 else 0)
         + CountClass(links[1..], currentHost, c)
  }

  function ExternalCount(links: seq<Link>, currentHost: string): (n: nat)
    ensures n <= |links|
  {
    CountClass(links, currentHost, External)
  }

  function InternalCount(links: seq<Link>, currentHost: string): (n: nat)
    ensures n <= |links|
  {
    CountClass(links, currentHost, Internal)
  }

  /** Every link lands in exactly one of the three classes, so external plus
      internal never exceeds the number of anchors; the gap is the ignored ones. */
  lemma {:induction false} ClassesPartitionLinks(links: seq<Link>, currentHost: string)
    ensures ExternalCount(links, currentHost) + InternalCount(links, currentHost)
            + CountClass(links, currentHost, Ignored) == |links|
  {
    if links != [] {
      ClassesPartitionLinks(links[1..], currentHost);
    }
  }

  /** Counting is additive over concatenated link lists. */
  lemma {:induction false} CountClassAppend(a: seq<Link>, b: seq<Link>, currentHost: string, c: LinkClass)
    ensures CountClass(a + b, currentHost, c) == CountClass(a, currentHost, c) + CountClass(b, currentHost, c)
    decreases |a|
  {
    if a == [] {
      assert a + b == b;
    } else {
      assert (a + b)[1..] == a[1..] + b;
      CountClassAppend(a[1..], b, currentHost, c);
    }
  }

  /** An ignored link changes neither the external nor the internal count. */
  lemma IgnoredLinkCountsNowhere(links: seq<Link>, l: Link, currentHost: string)
    requires IsIgnoredHref(l.href)
    ensures ExternalCount(links + [l], currentHost) == ExternalCount(links, currentHost)
    ensures InternalCount(links + [l], currentHost) == InternalCount(links, currentHost)
  {
    CountClassAppend(links, [l], currentHost, External);
    CountClassAppend(links, [l], currentHost, Internal);
  }

  /** A link that is not ignored and whose URL does not parse is internal. */
  lemma UnparsableLinkIsInternal(l: Link, currentHost: string)
    requires !IsIgnoredHref(l.href) && l.host.None?
    ensures Classify(l, currentHost) == Internal
  {
  }

  /** One leading "www." is ignored on either side of the comparison. */
  lemma WwwPrefixIgnored(href: string, host: string, currentHost: string)
    requires !IsIgnoredHref(href)
    requires !StartsWith(host, "www.") && !StartsWith(currentHost, "www.")
    ensures Classify(Link(href, Some("www." + host)), currentHost)
         == Classify(Link(href, Some(host)), "www." + currentHost)
         == Classify(Link(href, Some(host)), currentHost)
         == (if host == currentHost then Internal else External)
  {
    assert StartsWith("www." + host, "www.") && ("www." + host)[4..] == host;
    assert StartsWith("www." + currentHost, "www.") && ("www." + currentHost)[4..] == currentHost;
  }

  /** Every href of the six ignored forms is ignored, whatever follows the
      prefix. */
  lemma IgnoredHrefForms(rest: string)
    ensures IsIgnoredHref([])
    ensures IsIgnoredHref("#" + rest) && IsIgnoredHref("javascript:" + rest)
    ensures IsIgnoredHref("mailto:" + rest) && IsIgnoredHref("tel:" + rest)
    ensures IsIgnoredHref("sms:" + rest)
  {
    PrefixStartsWith("#", rest);
    PrefixStartsWith("javascript:", rest);
    PrefixStartsWith("mailto:", rest);
    PrefixStartsWith("tel:", rest);
    PrefixStartsWith("sms:", rest);
  }

  lemma PrefixStartsWith(p: string, rest: string)
    ensures StartsWith(p + rest, p)
  {
    assert (p + rest)[..|p|] == p;
  }

  /** An in-page anchor such as "#top" is ignored. */
  lemma AnchorIsIgnored(host: Option<string>, currentHost: string)
    ensures Classify(Link("#top", host), currentHost) == Ignored
  {
    assert StartsWith("#top", "#");
  }

  /** "https://example.com/x" on a page served from www.example.com is internal. */
  lemma SameSiteWithoutWwwIsInternal()
    ensures Classify(Link("https://example.com/x", Some("example.com")), "www.example.com") == Internal
  {
    NotStartsWith("example.com", "www.");
    assert StartsWith("www.example.com", "www.") && "www.example.com"[4..] == "example.com";
    var href := "https://example.com/x";
    NotStartsWith(href, "#");
    NotStartsWith(href, "javascript:");
    NotStartsWith(href, "mailto:");
    NotStartsWith(href, "tel:");
    NotStartsWith(href, "sms:");
  }
}

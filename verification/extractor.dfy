/**
 * `extractVideoInfo` of the content script (lines 28-138): the site override
 * for ogladajanime.pl, the generic fallback chains, title cleaning and the
 * record the script stores.
 */
module Extractor {
  import opened Wrappers
  import opened Text
  import opened Dom
  import opened Url
  import opened TitleCleaning
  import opened Chains
  import opened Episodes

  /** The substring that switches the override on (lines 35, 61, 90). */
  const OverrideHost := "ogladajanime.pl"

  /** The override's selectors (lines 37, 43 and 51). */
  const HeadingSelectors := ["h1.entry-title"]
  const ImageSelectors := [".post-thumbnail img"]
  const VideoSelectors := ["video"]

  /** What the script can see of the page: its address and its document. */
  datatype Page = Page(href: string, doc: Document)

  /** The stored record (lines 124-131). `timestamp` is `Date.now()`, which the
      model receives as a parameter. */
  datatype VideoInfo = VideoInfo(
    url: string,
    title: string,
    thumbnail: string,
    timestamp: int,
    domain: string,
    episodeLinks: seq<MirrorLink>)

  /** The override is chosen by a substring test on the whole address, not on
      the host name: a query string mentioning the site switches it on too. */
  predicate IsOverride(href: string) {
    Contains(href, OverrideHost)
  }

  /** Lines 37-40: the trimmed text of `h1.entry-title`, or "". */
  function OverrideTitle(doc: Document): string {
    match QuerySelector(doc, Everywhere, HeadingSelectors)
    case None => ""
    case Some(h) => Trim(h.text)
  }

  /** Lines 43-54: the `src` of `.post-thumbnail img`, or when that is empty
      the `poster` of the first video element, or "". */
  function OverrideThumbnail(doc: Document): string {
    var img := QuerySelector(doc, Everywhere, ImageSelectors);
    var fromImage := if img.Some? then img.value.src else "";
    if fromImage != "" then fromImage
    else
      var video := QuerySelector(doc, Everywhere, VideoSelectors);
      if video.Some? then video.value.poster else ""
  }

  /** The override title is the trimmed text of the first `h1.entry-title`
      in document order, or "" when there is none. */
  lemma {:induction false} OverrideTitleFromHeading(doc: Document)
    ensures NoneSelected(doc, Everywhere, HeadingSelectors) ==> OverrideTitle(doc) == ""
    ensures forall i :: FirstSelectedAt(doc, Everywhere, HeadingSelectors, i) ==> OverrideTitle(doc) == Trim(doc[i].text)
  {
    QuerySelectorIsFirst(doc, Everywhere, HeadingSelectors);
  }

  /** The override thumbnail is the `src` of the first `.post-thumbnail img`
      when that is non-empty; otherwise the `poster` of the first video, or
      "" when there is no video either. */
  lemma {:induction false} OverrideThumbnailFromImages(doc: Document)
    ensures forall i :: FirstSelectedAt(doc, Everywhere, ImageSelectors, i) && doc[i].src != "" ==>
              OverrideThumbnail(doc) == doc[i].src
    ensures ImageGivesNothing(doc) ==>
              (NoneSelected(doc, Everywhere, VideoSelectors) ==> OverrideThumbnail(doc) == "") &&
              forall v :: FirstSelectedAt(doc, Everywhere, VideoSelectors, v) ==> OverrideThumbnail(doc) == doc[v].poster
  {
    QuerySelectorIsFirst(doc, Everywhere, ImageSelectors);
    QuerySelectorIsFirst(doc, Everywhere, VideoSelectors);
  }

  /** No `.post-thumbnail img`, or the first one has an empty `src`. */
  predicate ImageGivesNothing(doc: Document) {
    NoneSelected(doc, Everywhere, ImageSelectors) ||
    exists i :: 0 <= i < |doc| && FirstSelectedAt(doc, Everywhere, ImageSelectors, i) && doc[i].src == ""
  }

  /** The title before cleaning: the override title, unless it is empty or the
      override is off, in which case the generic chain runs (lines 61-87). */
  function RawTitle(page: Page): (r: string)
    ensures !IsOverride(page.href) ==> r == TitleChain(FindEach(page.doc, TitleSelectors), "")
    ensures IsOverride(page.href) && OverrideTitle(page.doc) != "" ==> r == OverrideTitle(page.doc)
    ensures IsOverride(page.href) && OverrideTitle(page.doc) == "" ==>
              r == TitleChain(FindEach(page.doc, TitleSelectors), "")
  {
    var override := IsOverride(page.href);
    var title := if override then OverrideTitle(page.doc) else "";
    if title == "" || !override then TitleChain(FindEach(page.doc, TitleSelectors), title) else title
  }

  /** The thumbnail: the override thumbnail, unless it is empty or the override
      is off, in which case the generic chain runs (lines 90-113). */
  function Thumbnail(page: Page): (r: string)
    ensures !IsOverride(page.href) ==> r == ThumbnailChain(FindEach(page.doc, ThumbnailSelectors))
    ensures IsOverride(page.href) && OverrideThumbnail(page.doc) != "" ==> r == OverrideThumbnail(page.doc)
    ensures IsOverride(page.href) && OverrideThumbnail(page.doc) == "" ==>
              r == ThumbnailChain(FindEach(page.doc, ThumbnailSelectors))
  {
    var override := IsOverride(page.href);
    var thumbnail := if override then OverrideThumbnail(page.doc) else "";
    if thumbnail == "" || !override then ThumbnailChain(FindEach(page.doc, ThumbnailSelectors)) else thumbnail
  }

  /** One run of `extractVideoInfo` at time `now`. Link discovery runs only
      under the override, and a fault there aborts the run before the record
      is built. */
  function ExtractVideoInfo(page: Page, now: int, parse: UrlParser): (r: Result<VideoInfo, Fault>)
    ensures r.Failure? <==> IsOverride(page.href) && EpisodeLinks(page.doc).Failure?
    ensures r.Success? ==>
              && r.value.url == page.href
              && r.value.timestamp == now
              && r.value.domain == DomainFromUrl(page.href, parse)
              && r.value.thumbnail == Thumbnail(page)
    ensures r.Success? ==> r.value.title == PublishTitle(RawTitle(page))
    ensures r.Success? ==> r.value.title != [] && |r.value.title| <= MaxTitleLength + |Ellipsis|
    ensures r.Success? && !IsOverride(page.href) ==> r.value.episodeLinks == []
    ensures r.Success? && IsOverride(page.href) ==> r.value.episodeLinks == EpisodeLinks(page.doc).value
    ensures r.Success? ==> DistinctUrls(r.value.episodeLinks)
  {
    var links :- if IsOverride(page.href) then EpisodeLinks(page.doc) else Success([]);
    Success(VideoInfo(
      page.href,
      PublishTitle(RawTitle(page)),
      Thumbnail(page),
      now,
      DomainFromUrl(page.href, parse),
      links))
  }

  // ---------------------------------------------------------------------------
  // Properties
  // ---------------------------------------------------------------------------

  /** A page outside the override where no title selector finds a non-blank
      value and no thumbnail selector a non-empty one: the record carries the
      sentinel title and no thumbnail. */
  lemma {:induction false} NothingFoundRecord(page: Page, now: int, parse: UrlParser)
    requires !IsOverride(page.href)
    requires FirstTitleHit(FindEach(page.doc, TitleSelectors)).None?
    requires FirstThumbnailHit(FindEach(page.doc, ThumbnailSelectors)).None?
    ensures ExtractVideoInfo(page, now, parse).Success?
    ensures ExtractVideoInfo(page, now, parse).value.title == UnknownTitle
    ensures ExtractVideoInfo(page, now, parse).value.thumbnail == ""
    ensures ExtractVideoInfo(page, now, parse).value.episodeLinks == []
  {
    BlankTitleIsUnknown(RawTitle(page));
  }

  /** The override depends on the whole address: any address with the site
      name somewhere in it, e.g. in a query string after another host, turns
      it on. */
  lemma {:induction false} OverrideOnAnyMention(before: string, after: string)
    ensures IsOverride(before + OverrideHost + after)
  {
    var s := before + OverrideHost + after;
    assert s[|before|..|before| + |OverrideHost|] == OverrideHost;
    ContainsAt(s, OverrideHost, |before|);
  }

  /** An `og:title`-style value with padding and an interior " - ", found
      first, reaches the record trimmed but otherwise unchanged. */
  lemma {:induction false} PaddedSeparatorTitle(page: Page, now: int, parse: UrlParser)
    requires !IsOverride(page.href)
    requires var found := FindEach(page.doc, TitleSelectors);
             FirstTitleHit(found).Some? &&
             TitleValue(found[FirstTitleHit(found).value].value) == "  My Video - Site  "
    ensures ExtractVideoInfo(page, now, parse).value.title == "My Video - Site"
  {
    OgTitleScenario();
  }
}

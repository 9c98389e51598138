/**
 * The decisions of the toolbar popup (popup.js): which host counts as
 * YouTube, how a quality value is labelled, which buttons are visible for a
 * record, how the format and quality selects pull each other along, and which
 * record the popup holds after asking the page's content script.
 */
module Popup {
  import opened Wrappers
  import opened Text
  import opened Url
  import opened Extractor
  import opened Watcher
  import opened ServerStatus

  // ---------------------------------------------------------------------------
  // YouTube hosts (lines 281-287)
  // ---------------------------------------------------------------------------

  /** The listed domains, in the order `some` tries them. */
  const YouTubeDomains: seq<string> := [
    "youtube.com", "www.youtube.com", "m.youtube.com", "music.youtube.com",
    "youtu.be", "youtube-nocookie.com"
  ]

  /** `host === d || host.endsWith('.' + d)`: the domain itself or a
      subdomain of it, never a host that merely ends in the same letters. */
  predicate UnderDomain(host: string, d: string) {
    host == d || EndsWith(host, "." + d)
  }

  /** `domains.some(d => UnderDomain(host, d))`. */
  function SomeDomainMatches(host: string, domains: seq<string>): (r: bool)
    ensures r <==> exists i :: 0 <= i < |domains| && UnderDomain(host, domains[i])
  {
    if domains == [] then false
    else UnderDomain(host, domains[0]) || SomeDomainMatches(host, domains[1..])
  }

  /** `isYouTubeDomain(url)`: false when the address does not parse, otherwise
      whether the lower-cased host is one of the listed domains or below one. */
  function IsYouTubeDomain(url: string, parse: UrlParser): (r: bool)
    ensures parse(url).None? ==> !r
    ensures parse(url).Some? ==>
              (r <==> exists i :: 0 <= i < |YouTubeDomains| &&
                        UnderDomain(ToLowerAscii(parse(url).value.hostname), YouTubeDomains[i]))
  {
    match parse(url)
    case None => false
    case Some(parts) => SomeDomainMatches(ToLowerAscii(parts.hostname), YouTubeDomains)
  }

  // ---------------------------------------------------------------------------
  // Quality labels (lines 289-298)
  // ---------------------------------------------------------------------------

  /** The five known quality selectors and their labels. */
  const QualityLabels: map<string, string> := map[
    "best" := "Best Quality (1440p/1080p)",
    "best[height<=720]" := "HD 720p or lower",
    "best[height<=480]" := "SD 480p or lower",
    "worst" := "Lowest Quality",
    "bestaudio" := "Audio Only (High Quality)"
  ]

  /** `getDefaultQualityText(value)`: `defaults[value] || value`. */
  function QualityText(value: string): (r: string)
    ensures value in QualityLabels ==> r == QualityLabels[value]
    ensures value !in QualityLabels ==> r == value
  {
    if value in QualityLabels then OrElse(QualityLabels[value], value) else value
  }

  // ---------------------------------------------------------------------------
  // Button visibility (lines 251-279)
  // ---------------------------------------------------------------------------

  /** Whether the download button and the "show links" button are displayed. */
  datatype Buttons = Buttons(download: bool, links: bool)

  /** `updateDownloadButtonVisibility` for the record the popup holds. The
      decision reads the record's `domain`, not its address. */
  function ButtonVisibility(info: Option<VideoInfo>): (r: Buttons)
    ensures r.download <==> !(info.Some? && Contains(info.value.domain, OverrideHost))
    ensures r.links <==> info.Some? && Contains(info.value.domain, OverrideHost) && info.value.episodeLinks != []
    ensures !(r.download && r.links)
  {
    if info.Some? && info.value.domain != [] then
      if Contains(info.value.domain, OverrideHost) then Buttons(false, info.value.episodeLinks != [])
      else Buttons(true, false)
    else Buttons(true, false)
  }

  // ---------------------------------------------------------------------------
  // Format and quality coupling (lines 101-108)
  // ---------------------------------------------------------------------------

  /** The values of the format and quality selects. */
  datatype Choice = Choice(format: string, quality: string)

  const AudioFormat := "mp3"
  const AudioQuality := "bestaudio"

  /** The user picks `format`; picking mp3 also selects the audio quality. */
  function OnFormatChange(c: Choice, format: string): (r: Choice)
    ensures r.format == format
    ensures format == AudioFormat ==> r.quality == AudioQuality
    ensures format != AudioFormat ==> r.quality == c.quality
  {
    if format == AudioFormat then Choice(format, AudioQuality) else Choice(format, c.quality)
  }

  /** The user picks `quality`; picking the audio quality under another format
      also selects mp3. */
  function OnQualityChange(c: Choice, quality: string): (r: Choice)
    ensures r.quality == quality
    ensures quality == AudioQuality ==> r.format == AudioFormat
    ensures quality != AudioQuality ==> r.format == c.format
  {
    if quality == AudioQuality && c.format != AudioFormat then Choice(AudioFormat, quality)
    else Choice(c.format, quality)
  }

  /** One user action on either select. */
  datatype Pick = FormatPicked(format: string) | QualityPicked(quality: string)

  function ApplyPick(c: Choice, p: Pick): Choice {
    match p
    case FormatPicked(f) => OnFormatChange(c, f)
    case QualityPicked(q) => OnQualityChange(c, q)
  }

  /** A sequence of actions, oldest first. */
  function ApplyPicks(c: Choice, ps: seq<Pick>): Choice
    decreases |ps|
  {
    if ps == [] then c else ApplyPick(ApplyPicks(c, ps[..|ps| - 1]), ps[|ps| - 1])
  }

  // ---------------------------------------------------------------------------
  // The record the popup holds (lines 196-214)
  // ---------------------------------------------------------------------------

  /** The active tab as the popup sees it. */
  datatype Tab = Tab(url: string, title: string)

  /** What `chrome.tabs.sendMessage` does: it rejects when the page has no
      listener, and otherwise resolves with the listener's answer, `undefined`
      when the listener does not answer. */
  datatype Reply = NoReceiver | Replied(answer: Option<VideoInfo>)

  /** The record the popup builds itself when the page answers nothing. */
  function FallbackRecord(tab: Tab, now: int, parse: UrlParser): (r: VideoInfo)
    ensures r.url == tab.url && r.timestamp == now
    ensures r.title == (if tab.title != [] then tab.title else "Unknown")
    ensures r.thumbnail == [] && r.episodeLinks == []
    ensures r.domain == DomainFromUrl(tab.url, parse)
  {
    VideoInfo(tab.url, OrElse(tab.title, "Unknown"), "", now, DomainFromUrl(tab.url, parse), [])
  }

  /** `getVideoInfo`: the answer when there is one, the fallback record when
      the page answered nothing, and the previous record when the message was
      rejected (the error is caught and nothing is assigned). */
  function RefreshVideoInfo(current: Option<VideoInfo>, reply: Reply, tab: Tab, now: int, parse: UrlParser)
    : (r: Option<VideoInfo>)
    ensures reply.NoReceiver? ==> r == current
    ensures reply.Replied? && reply.answer.Some? ==> r == reply.answer
    ensures reply == Replied(None) ==> r == Some(FallbackRecord(tab, now, parse))
  {
    match reply
    case NoReceiver => current
    case Replied(None) => Some(FallbackRecord(tab, now, parse))
    case Replied(Some(info)) => Some(info)
  }

  /** What asking the content script in state `s` yields: a page whose script
      died at start has no listener. */
  function AskContentScript(s: State): (r: Reply)
    ensures r.NoReceiver? <==> s.Dead?
    ensures r.Replied? ==> r.answer == Respond(s, QueryAction)
  {
    if s.Dead? then NoReceiver else Replied(Respond(s, QueryAction))
  }

  // ---------------------------------------------------------------------------
  // Properties
  // ---------------------------------------------------------------------------

  /** Lower-casing keeps a suffix that has no capital letters. */
  lemma {:induction false} LowerKeepsLowerSuffix(sub: string, tail: string)
    requires forall c :: c in tail ==> !('A' <= c <= 'Z')
    ensures EndsWith(ToLowerAscii(sub + tail), tail)
  {
    var x := sub + tail;
    var host := ToLowerAscii(x);
    var end := host[|sub|..];
    forall j | 0 <= j < |tail|
      ensures end[j] == tail[j]
    {
      assert x[|sub| + j] == tail[j];
      assert tail[j] in tail;
      assert end[j] == LowerAscii(x[|sub| + j]);
    }
    assert end == tail;
  }

  /** A host whose lower-cased form is under one of the listed domains is
      recognised. */
  lemma {:induction false} UnderListedDomainIsYouTube(url: string, parse: UrlParser, i: nat)
    requires parse(url).Some? && i < |YouTubeDomains|
    requires UnderDomain(ToLowerAscii(parse(url).value.hostname), YouTubeDomains[i])
    ensures IsYouTubeDomain(url, parse)
  {
  }

  /** A host ending in ".youtube.com" is below the first listed domain. */
  lemma {:induction false} LowerHostUnderYouTube(host: string)
    requires EndsWith(host, ".youtube.com")
    ensures UnderDomain(host, YouTubeDomains[0])
  {
  }

  /** Every host below youtube.com matches, whatever the case of its letters. */
  lemma {:induction false} SubdomainIsYouTube(url: string, parse: UrlParser, sub: string)
    requires parse(url).Some? && parse(url).value.hostname == sub + ".youtube.com"
    ensures IsYouTubeDomain(url, parse)
  {
    var host := ToLowerAscii(parse(url).value.hostname);
    assert EndsWith(host, ".youtube.com") by {
      LowerKeepsLowerSuffix(sub, ".youtube.com");
    }
    assert UnderDomain(host, YouTubeDomains[0]) by {
      LowerHostUnderYouTube(host);
    }
    UnderListedDomainIsYouTube(url, parse, 0);
  }

  /** A host that ends in a domain's letters without a dot in front of them
      is not under that domain: "notyoutube.com" is not below "youtube.com". */
  lemma {:induction false} LookalikeIsNotUnder(host: string, d: string)
    requires |host| > |d| && EndsWith(host, d) && host[|host| - |d| - 1] != '.'
    ensures !UnderDomain(host, d)
  {
  }

  /** A known selector is shown by its label and any other value as itself;
      labels are not selectors, so labelling twice changes nothing. */
  lemma {:induction false} QualityTextIdempotent(value: string)
    ensures QualityText(QualityText(value)) == QualityText(value)
    ensures QualityText(value) != [] <==> value != []
  {
  }

  /** Distinct known selectors get distinct labels. */
  lemma {:induction false} QualityLabelsDistinct(a: string, b: string)
    requires a in QualityLabels && b in QualityLabels && a != b
    ensures QualityText(a) != QualityText(b)
  {
  }

  /** An address that mentions the site outside its host name, such as
      "https://example.com/?ogladajanime.pl", turns the content script's
      override on, so the record carries the episode links; the popup decides
      on the host name and shows the download button instead, hiding them. */
  lemma {:induction false} AddressMentionHidesLinks(page: Page, now: int, parse: UrlParser, info: VideoInfo)
    requires IsOverride(page.href)
    requires parse(page.href).Some?
    requires !StartsWith(parse(page.href).value.hostname, "www.")
    requires !Contains(parse(page.href).value.hostname, OverrideHost)
    requires ExtractVideoInfo(page, now, parse) == Success(info)
    ensures Episodes.EpisodeLinks(page.doc) == Success(info.episodeLinks)
    ensures ButtonVisibility(Some(info)) == Buttons(true, false)
  {
  }

  /** A record made by the popup itself never shows the links button. */
  lemma {:induction false} FallbackNeverShowsLinks(tab: Tab, now: int, parse: UrlParser)
    ensures !ButtonVisibility(Some(FallbackRecord(tab, now, parse))).links
  {
  }

  /** After either handler, one of the two selects holds its audio value only
      if the other does too, for the select just changed. */
  lemma {:induction false} HandlersCoupleTheirOwnChange(c: Choice, format: string, quality: string)
    ensures OnFormatChange(c, format).format == AudioFormat ==>
              OnFormatChange(c, format) == Choice(AudioFormat, AudioQuality)
    ensures OnQualityChange(c, quality).quality == AudioQuality ==>
              OnQualityChange(c, quality) == Choice(AudioFormat, AudioQuality)
  {
  }

  /** The coupling is one-way: leaving mp3 keeps the audio quality. */
  lemma {:induction false} LeavingMp3KeepsAudioQuality()
    ensures OnFormatChange(Choice(AudioFormat, AudioQuality), "mp4") == Choice("mp4", AudioQuality)
  {
  }

  /** Whatever came before, ending with an audio pick leaves both selects on
      their audio values. */
  lemma {:induction false} LastAudioPickCouples(c: Choice, ps: seq<Pick>, last: Pick)
    requires last == FormatPicked(AudioFormat) || last == QualityPicked(AudioQuality)
    ensures ApplyPicks(c, ps + [last]) == Choice(AudioFormat, AudioQuality)
  {
    var all := ps + [last];
    assert all[..|all| - 1] == ps;
    assert all[|all| - 1] == last;
  }

  /** With the content script running, the popup holds exactly the record the
      script stored; with the script dead it keeps what it had. The fallback
      record is never built from this script's replies. */
  lemma {:induction false} PopupHoldsStoredRecord(s: State, current: Option<VideoInfo>, tab: Tab, now: int, parse: UrlParser)
    ensures s.Live? ==> RefreshVideoInfo(current, AskContentScript(s), tab, now, parse) == Some(s.record)
    ensures s.Dead? ==> RefreshVideoInfo(current, AskContentScript(s), tab, now, parse) == current
  {
  }
}

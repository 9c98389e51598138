/**
 * The generic fallback chains of `extractVideoInfo` (content script, lines
 * 60-113): ordered selector lists tried one after the other, where the first
 * element that yields a usable value decides the result.
 */
module Chains {
  import opened Wrappers
  import opened Text
  import opened Dom

  /** Lines 63-71, in the order they are tried. */
  const TitleSelectors: seq<string> := [
    "title", "h1", "[data-title]", ".video-title", ".title",
    "meta[property=\"og:title\"]", "meta[name=\"title\"]"
  ]

  /** Lines 92-98, in the order they are tried. */
  const ThumbnailSelectors: seq<string> := [
    "meta[property=\"og:image\"]", "meta[name=\"twitter:image\"]", "video",
    ".video-thumbnail img", ".thumbnail img"
  ]

  /** What each selector of `sels` finds in the whole document, in order. */
  function FindEach(doc: Document, sels: seq<string>): (r: seq<Option<Element>>)
    ensures |r| == |sels|
    ensures forall i :: 0 <= i < |sels| ==> r[i] == QuerySelector(doc, Everywhere, [sels[i]])
  {
    if sels == [] then []
    else [QuerySelector(doc, Everywhere, [sels[0]])] + FindEach(doc, sels[1..])
  }

  // ---------------------------------------------------------------------------
  // Title chain
  // ---------------------------------------------------------------------------

  /** What the title chain reads from an element (lines 76-80): `content` of a
      meta element, otherwise `textContent`, or `innerText` when that is empty. */
  function TitleValue(e: Element): string {
    if e.tag == "META" then e.content
    else if e.text != "" then e.text
    else e.innerText
  }

  /** A lookup that ends the title loop: an element whose value is not blank. */
  predicate TitleHit(f: Option<Element>) {
    f.Some? && !AllJsSpace(TitleValue(f.value))
  }

  /** The position of the first lookup in `found` that hits. */
  function FirstTitleHit(found: seq<Option<Element>>): (r: Option<nat>)
    ensures r.Some? ==> r.value < |found| && TitleHit(found[r.value])
    ensures r.Some? ==> forall j :: 0 <= j < r.value ==> !TitleHit(found[j])
    ensures r.None? ==> forall j :: 0 <= j < |found| ==> !TitleHit(found[j])
  {
    if found == [] then None
    else if TitleHit(found[0]) then Some(0)
    else match FirstTitleHit(found[1..])
      case None => None
      case Some(k) => Some(k + 1)
  }

  /** The loop of lines 73-86 over the lookups `found`, entered with `title` as
      the current value of the variable: every found element overwrites it, and
      the first non-blank value ends the loop, trimmed. */
  function TitleChain(found: seq<Option<Element>>, title: string): (r: string)
    ensures FirstTitleHit(found).Some? ==>
              r == Trim(TitleValue(found[FirstTitleHit(found).value].value))
    ensures FirstTitleHit(found).None? && AllJsSpace(title) ==> AllJsSpace(r)
  {
    if found == [] then title
    else
      var rest := found[1..];
      FirstTitleHitShift(found);
      match found[0]
      case None => TitleChain(rest, title)
      case Some(e) =>
        var v := TitleValue(e);
        if Trim(v) != [] then Trim(v) else TitleChain(rest, v)
  }

  /** Past a first lookup that misses, the first hit is the one of the rest, one later. */
  lemma {:induction false} FirstTitleHitShift(found: seq<Option<Element>>)
    requires found != []
    ensures !TitleHit(found[0]) && FirstTitleHit(found[1..]).Some? ==>
              FirstTitleHit(found).Some? && FirstTitleHit(found).value == FirstTitleHit(found[1..]).value + 1 &&
              found[FirstTitleHit(found).value] == found[1..][FirstTitleHit(found[1..]).value]
    ensures !TitleHit(found[0]) && FirstTitleHit(found[1..]).None? ==> FirstTitleHit(found).None?
    ensures TitleHit(found[0]) ==> FirstTitleHit(found) == Some(0)
  {
  }

  // ---------------------------------------------------------------------------
  // Thumbnail chain
  // ---------------------------------------------------------------------------

  /** What the thumbnail chain reads from an element (lines 103-109): `content`
      of a meta element, `poster` of a video element, otherwise `src`. */
  function ThumbnailValue(e: Element): string {
    if e.tag == "META" then e.content
    else if e.tag == "VIDEO" then e.poster
    else e.src
  }

  /** A lookup that ends the thumbnail loop: an element whose value is not
      empty. White space counts: the loop tests for truthiness, not blankness. */
  predicate ThumbnailHit(f: Option<Element>) {
    f.Some? && ThumbnailValue(f.value) != []
  }

  /** The position of the first lookup in `found` that hits. */
  function FirstThumbnailHit(found: seq<Option<Element>>): (r: Option<nat>)
    ensures r.Some? ==> r.value < |found| && ThumbnailHit(found[r.value])
    ensures r.Some? ==> forall j :: 0 <= j < r.value ==> !ThumbnailHit(found[j])
    ensures r.None? ==> forall j :: 0 <= j < |found| ==> !ThumbnailHit(found[j])
  {
    if found == [] then None
    else if ThumbnailHit(found[0]) then Some(0)
    else match FirstThumbnailHit(found[1..])
      case None => None
      case Some(k) => Some(k + 1)
  }

  /** The loop of lines 100-112 over the lookups `found`, entered with an empty
      value: the first non-empty value wins, untrimmed; with no hit it stays "". */
  function ThumbnailChain(found: seq<Option<Element>>): (r: string)
    ensures FirstThumbnailHit(found).Some? ==>
              r == ThumbnailValue(found[FirstThumbnailHit(found).value].value)
    ensures FirstThumbnailHit(found).None? <==> r == []
  {
    if found == [] then []
    else match found[0]
      case None => ThumbnailChain(found[1..])
      case Some(e) =>
        var v := ThumbnailValue(e);
        if v != [] then v else ThumbnailChain(found[1..])
  }

  // ---------------------------------------------------------------------------
  // Properties
  // ---------------------------------------------------------------------------

  /** Lookups after the first hit are never consulted. */
  lemma {:induction false} TitleChainStopsAtHit(found: seq<Option<Element>>, more: seq<Option<Element>>, title: string)
    requires FirstTitleHit(found).Some?
    ensures TitleChain(found + more, title) == TitleChain(found, title)
  {
    var k := FirstTitleHit(found).value;
    var all := found + more;
    assert FirstTitleHit(all) == Some(k) by {
      assert all[k] == found[k];
      assert forall j :: 0 <= j < k ==> all[j] == found[j];
      var r := FirstTitleHit(all);
      assert r.Some?;
      assert !(r.value < k) && !(k < r.value);
    }
    assert all[k] == found[k];
  }

  /** A title chain with a hit yields a non-blank, trimmed value. */
  lemma {:induction false} TitleChainHitIsTrimmed(found: seq<Option<Element>>, title: string)
    requires FirstTitleHit(found).Some?
    ensures TitleChain(found, title) != []
    ensures Trim(TitleChain(found, title)) == TitleChain(found, title)
  {
    var v := TitleValue(found[FirstTitleHit(found).value].value);
    assert !AllJsSpace(v);
    TrimIdempotent(v);
  }

  /** Lookups after the first hit are never consulted. */
  lemma {:induction false} ThumbnailChainStopsAtHit(found: seq<Option<Element>>, more: seq<Option<Element>>)
    requires FirstThumbnailHit(found).Some?
    ensures ThumbnailChain(found + more) == ThumbnailChain(found)
  {
    var k := FirstThumbnailHit(found).value;
    var all := found + more;
    assert all[k] == found[k];
    assert forall j :: 0 <= j < k ==> all[j] == found[j];
    var r := FirstThumbnailHit(all);
    assert r.Some?;
    assert !(r.value < k) && !(k < r.value);
  }
}

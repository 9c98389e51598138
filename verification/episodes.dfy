/**
 * Mirror-link discovery of the content script (`extractEpisodeLinks`, lines
 * 150-255): Phase A reads link containers, Phase B scans anchors to known
 * hosts when Phase A found nothing, and the result is deduplicated by URL
 * keeping the first entry of each URL.
 */
module Episodes {
  import opened Wrappers
  import opened Text
  import opened Dom

  /** One entry of `episodeLinks`. */
  datatype MirrorLink = MirrorLink(author: string, url: string, description: string)

  /** Why an extraction aborts. Line 189 declares `description` as a constant
      and line 195 assigns to it, which throws a `TypeError`. */
  datatype Fault = AssignToConstant

  const DefaultDescription := "Link do odcinka"
  const UnknownAuthor := "Unknown Author"
  /** Phase B's author when the anchor has no enclosing container (line 231). */
  const UnknownParent := "Unknown"

  /** Lines 156-163. */
  const ContainerSelectors: seq<string> := [
    ".episode-links .link-container", ".mirror-links .mirror-link",
    ".mirror-container .mirror-item", ".download-links .link-item",
    ".episode-mirrors .mirror", ".link-list .link-entry"
  ]
  /** Lines 169-172. */
  const AuthorSelectors: seq<string> := [
    ".author-name", ".mirror-author", ".link-author", ".mirror-title", ".link-title", ".source-name"
  ]
  /** Lines 176-178. */
  const LinkSelectors: seq<string> := ["a[href]", ".download-link", ".mirror-url", ".link-url"]
  /** Lines 185-188. */
  const DescriptionSelectors: seq<string> := [
    ".link-desc", ".mirror-desc", ".link-description", ".mirror-description", ".source-desc"
  ]
  /** Lines 212-223. */
  const AnchorSelectors: seq<string> := [
    "a[href*=\"ogladajanime.pl\"]", "a[href*=\"streamtape.com\"]", "a[href*=\"mp4upload.com\"]",
    "a[href*=\"yourupload.com\"]", "a[href*=\"streamlare.com\"]", "a[href*=\"mixdrop.co\"]",
    "a[href*=\"dood.to\"]", "a[href*=\"filemoon.sx\"]", "a[href*=\"voe.sx\"]",
    "a[href*=\"vidstreaming.io\"]"
  ]
  /** Line 230. */
  const ParentSelectors: seq<string> := [".link-item", ".mirror-item", "li", ".mirror", ".source"]

  /** `textContent?.trim()`, with "" for a missing element. */
  function TrimmedText(e: Option<Element>): string {
    if e.Some? then Trim(e.value.text) else ""
  }

  // ---------------------------------------------------------------------------
  // Phase A: link containers
  // ---------------------------------------------------------------------------

  /** The decision for one container (lines 168-205), from what its three
      queries found: `author`, `link` and `desc`. `Success(None)` means the
      container is skipped. */
  function ContainerDecision(author: Option<Element>, link: Option<Element>, desc: Option<Element>):
    (r: Result<Option<MirrorLink>, Fault>)
    // the assignment to the constant is reached, whatever the link's address
    ensures r.Failure? <==>
              TrimmedText(desc) == [] && link.Some? && TrimmedText(link) != [] &&
              TrimmedText(link) != link.value.href
    // containers without a link address are dropped
    ensures r.Success? ==> (r.value.Some? <==> link.Some? && link.value.href != [])
    ensures r.Success? && r.value.Some? ==>
              && r.value.value.url == link.value.href
              && r.value.value.author == (if author.Some? then Trim(author.value.text) else UnknownAuthor)
              && r.value.value.description != []
              && r.value.value.description == (if TrimmedText(desc) != [] then TrimmedText(desc) else DefaultDescription)
  {
    var authorText := if author.Some? then Trim(author.value.text) else UnknownAuthor;
    var url := if link.Some? then link.value.href else "";
    var description := TrimmedText(desc);
    if description == [] && link.Some? then
      var linkText := TrimmedText(link);
      if linkText != [] && linkText != url then Failure(AssignToConstant)
      else if url != [] then Success(Some(MirrorLink(authorText, url, DefaultDescription)))
      else Success(None)
    else if url != [] then
      Success(Some(MirrorLink(authorText, url, if description != [] then description else DefaultDescription)))
    else Success(None)
  }

  /** One container: its three descendant queries and the decision. */
  function ContainerLink(doc: Document, c: Element): Result<Option<MirrorLink>, Fault> {
    ContainerDecision(
      QuerySelector(doc, Under(c.id), AuthorSelectors),
      QuerySelector(doc, Under(c.id), LinkSelectors),
      QuerySelector(doc, Under(c.id), DescriptionSelectors))
  }

  /** What a container's queries decide: a kept entry's address is the `href`
      of a link element inside the container; without a link element the
      container is skipped; with a non-blank description element it does not
      throw. */
  lemma {:induction false} ContainerLinkFromQueries(doc: Document, c: Element)
    ensures var r := ContainerLink(doc, c);
            r.Success? && r.value.Some? ==>
              exists e :: e in doc && Selected(e, Under(c.id), LinkSelectors) && e.href == r.value.value.url != []
    ensures NoneSelected(doc, Under(c.id), LinkSelectors) ==>
              ContainerLink(doc, c) == Success(None)
    ensures TrimmedText(QuerySelector(doc, Under(c.id), DescriptionSelectors)) != [] ==>
              ContainerLink(doc, c).Success?
  {
  }

  /** What each container of `cs` decides, in order. */
  function ContainerOutcomes(doc: Document, cs: seq<Element>): (r: seq<Result<Option<MirrorLink>, Fault>>)
    ensures |r| == |cs|
    ensures forall i :: 0 <= i < |cs| ==> r[i] == ContainerLink(doc, cs[i])
  {
    if cs == [] then [] else [ContainerLink(doc, cs[0])] + ContainerOutcomes(doc, cs[1..])
  }

  /** The `forEach` of lines 167-206 over the containers' outcomes: the kept
      links in container order, or the fault of a container that throws. */
  function PhaseA(outcomes: seq<Result<Option<MirrorLink>, Fault>>): (r: Result<seq<MirrorLink>, Fault>)
    ensures r.Success? <==> forall i :: 0 <= i < |outcomes| ==> outcomes[i].Success?
    ensures r.Success? ==> |r.value| <= |outcomes|
    ensures r.Success? ==> forall k :: 0 <= k < |r.value| ==> Success(Some(r.value[k])) in outcomes
  {
    if outcomes == [] then Success([])
    else
      var rest := PhaseA(outcomes[1..]);
      if outcomes[0].Failure? then Failure(outcomes[0].error)
      else if rest.Failure? then Failure(rest.error)
      else
        var r := (if outcomes[0].value.Some? then [outcomes[0].value.value] else []) + rest.value;
        assert forall k :: 0 <= k < |rest.value| ==> Success(Some(rest.value[k])) in outcomes[1..];
        Success(r)
  }

  /** Every link Phase A keeps has an address and a description. */
  lemma {:induction false} PhaseAKeepsAddressed(doc: Document, cs: seq<Element>)
    requires PhaseA(ContainerOutcomes(doc, cs)).Success?
    ensures forall k :: 0 <= k < |PhaseA(ContainerOutcomes(doc, cs)).value| ==>
              PhaseA(ContainerOutcomes(doc, cs)).value[k].url != [] &&
              PhaseA(ContainerOutcomes(doc, cs)).value[k].description != []
  {
    var outcomes := ContainerOutcomes(doc, cs);
    var links := PhaseA(outcomes).value;
    forall k | 0 <= k < |links| ensures links[k].url != [] && links[k].description != [] {
      var i :| 0 <= i < |outcomes| && outcomes[i] == Success(Some(links[k]));
      assert outcomes[i] == ContainerLink(doc, cs[i]);
    }
  }

  /** One container's outcome on its own: its fault, its entry, or nothing. */
  lemma {:induction false} PhaseAOne(o: Result<Option<MirrorLink>, Fault>)
    ensures PhaseA([o]) == if o.Failure? then Failure(o.error)
                           else Success(if o.value.Some? then [o.value.value] else [])
  {
    assert [o][1..] == [];
    assert PhaseA([o][1..]) == Success([]);
    if o.Success? {
      var head := if o.value.Some? then [o.value.value] else [];
      assert head + [] == head;
    }
  }

  /** Phase A over two runs of containers is Phase A over each, the entries
      of the first run before those of the second. With `PhaseAOne` this
      fixes Phase A's result for every list of outcomes. */
  lemma {:induction false} PhaseAAppend(o1: seq<Result<Option<MirrorLink>, Fault>>, o2: seq<Result<Option<MirrorLink>, Fault>>, n: nat)
    requires n == |o1|
    ensures PhaseA(o1 + o2) ==
              if PhaseA(o1).Failure? then PhaseA(o1)
              else if PhaseA(o2).Failure? then PhaseA(o2)
              else Success(PhaseA(o1).value + PhaseA(o2).value)
    decreases n
  {
    if n == 0 {
      assert o1 + o2 == o2;
      assert PhaseA(o1) == Success([]);
      if PhaseA(o2).Success? {
        assert [] + PhaseA(o2).value == PhaseA(o2).value;
      }
    } else {
      PhaseAAppend(o1[1..], o2, n - 1);
      var o := o1 + o2;
      assert o[0] == o1[0] && o[1..] == o1[1..] + o2;
      PhaseACons(o1);
      PhaseACons(o);
      ConsThenJoin(o1[0], PhaseA(o1[1..]), PhaseA(o2));
    }
  }

  /** Phase A's step on one outcome in front of a result. */
  function ConsOutcome(o: Result<Option<MirrorLink>, Fault>, rest: Result<seq<MirrorLink>, Fault>): Result<seq<MirrorLink>, Fault> {
    if o.Failure? then Failure(o.error)
    else if rest.Failure? then rest
    else Success((if o.value.Some? then [o.value.value] else []) + rest.value)
  }

  /** Two results joined: the first fault, or both lists one after the other. */
  function JoinResults(a: Result<seq<MirrorLink>, Fault>, b: Result<seq<MirrorLink>, Fault>): Result<seq<MirrorLink>, Fault> {
    if a.Failure? then a else if b.Failure? then b else Success(a.value + b.value)
  }

  /** One step of Phase A: the first outcome, then the rest. */
  lemma {:induction false} PhaseACons(o: seq<Result<Option<MirrorLink>, Fault>>)
    requires o != []
    ensures PhaseA(o) == ConsOutcome(o[0], PhaseA(o[1..]))
  {
  }

  /** Putting one outcome in front commutes with joining. */
  lemma {:induction false} ConsThenJoin(o: Result<Option<MirrorLink>, Fault>, a: Result<seq<MirrorLink>, Fault>, b: Result<seq<MirrorLink>, Fault>)
    ensures ConsOutcome(o, JoinResults(a, b)) == JoinResults(ConsOutcome(o, a), b)
  {
    if o.Success? && a.Success? && b.Success? {
      var head := if o.value.Some? then [o.value.value] else [];
      assert head + (a.value + b.value) == (head + a.value) + b.value;
    }
  }

  /** Phase A keeps the entry of every container that produced one, so it
      keeps nothing exactly when every container was skipped. */
  lemma {:induction false} PhaseAKeepsEveryLink(outcomes: seq<Result<Option<MirrorLink>, Fault>>, n: nat)
    requires n == |outcomes|
    requires PhaseA(outcomes).Success?
    ensures forall i :: 0 <= i < |outcomes| && outcomes[i].value.Some? ==> outcomes[i].value.value in PhaseA(outcomes).value
    ensures PhaseA(outcomes).value == [] <==> forall i :: 0 <= i < |outcomes| ==> outcomes[i].value.None?
    decreases n
  {
    if n > 0 {
      var rest := outcomes[1..];
      PhaseAKeepsEveryLink(rest, n - 1);
      var r := PhaseA(outcomes).value;
      var head := if outcomes[0].value.Some? then [outcomes[0].value.value] else [];
      assert r == head + PhaseA(rest).value;
      forall i | 0 < i < |outcomes| ensures outcomes[i] == rest[i - 1] {}
      if outcomes[0].value.Some? {
        assert r[0] == outcomes[0].value.value;
      }
    }
  }

  // ---------------------------------------------------------------------------
  // Phase B: anchors to known hosts
  // ---------------------------------------------------------------------------

  /** The author of lines 230-234: the enclosing container's text with the
      first occurrence of the address and then of the anchor text removed,
      trimmed; "Unknown" without a container, "Unknown Author" when empty. */
  function PhaseBAuthor(parent: Option<Element>, url: string, text: string): (r: string)
    ensures r != []
    ensures parent.None? ==> r == UnknownParent
    ensures parent.Some? ==>
              var rest := Trim(ReplaceFirst(ReplaceFirst(parent.value.text, url, ""), text, ""));
              r == if rest == [] then UnknownAuthor else rest
  {
    match parent
    case None => UnknownParent
    case Some(p) =>
      var rest := Trim(ReplaceFirst(ReplaceFirst(p.text, url, ""), text, ""));
      if rest == [] then UnknownAuthor else rest
  }

  /** The entry Phase B records for one anchor (lines 227-238). */
  function AnchorLink(doc: Document, a: Element): (r: MirrorLink)
    ensures r.url == a.href
    ensures r.description != [] && r.author != []
    ensures r.description == (if Trim(a.text) != [] then Trim(a.text) else DefaultDescription)
    ensures r.author == PhaseBAuthor(Closest(doc, a, ParentSelectors), a.href, Trim(a.text))
  {
    var text := Trim(a.text);
    MirrorLink(
      PhaseBAuthor(Closest(doc, a, ParentSelectors), a.href, text),
      a.href,
      if text != [] then text else DefaultDescription)
  }

  /** The author read from an enclosing container whose text is
      `pre + url + mid + text + post`, where `url` first occurs after `pre` and,
      once it is removed, `text` first occurs after `pre + mid`: what is left,
      trimmed, or "Unknown Author" when that is blank. */
  lemma {:induction false} PhaseBAuthorOfParts(p: Element, pre: string, url: string, mid: string, text: string, post: string)
    requires p.text == pre + url + mid + text + post
    requires forall j :: 0 <= j < |pre| ==> !OccursAt(p.text, url, j)
    requires forall j :: 0 <= j < |pre + mid| ==> !OccursAt(pre + mid + text + post, text, j)
    ensures var rest := Trim(pre + mid + post);
            PhaseBAuthor(Some(p), url, text) == if rest == [] then UnknownAuthor else rest
  {
    assert p.text == pre + url + (mid + text + post);
    RemoveFirstOccurrence(pre, url, mid + text + post);
    assert pre + (mid + text + post) == (pre + mid) + text + post;
    RemoveFirstOccurrence(pre + mid, text, post);
  }

  /** Removing the first occurrence of `pat` from `pre + pat + post`, when it
      does not occur earlier, leaves `pre + post`. */
  lemma {:induction false} RemoveFirstOccurrence(pre: string, pat: string, post: string)
    requires forall j :: 0 <= j < |pre| ==> !OccursAt(pre + pat + post, pat, j)
    ensures ReplaceFirst(pre + pat + post, pat, "") == pre + post
  {
    var s := pre + pat + post;
    assert s[|pre|..|pre| + |pat|] == pat;
    ReplaceFirstAt(s, pat, "", |pre|);
    assert s[..|pre|] == pre && s[|pre| + |pat|..] == post;
  }

  /** Every anchor gives exactly one entry, in anchor order. */
  function PhaseB(doc: Document, anchors: seq<Element>): (r: seq<MirrorLink>)
    ensures |r| == |anchors|
    ensures forall k :: 0 <= k < |r| ==> r[k] == AnchorLink(doc, anchors[k])
    ensures forall k :: 0 <= k < |r| ==> r[k].url == anchors[k].href
  {
    seq(|anchors|, k requires 0 <= k < |anchors| => AnchorLink(doc, anchors[k]))
  }

  /** Phase B over the document's anchors records them in document order:
      its `k`-th entry comes from the `k`-th anchor to a listed host. */
  lemma {:induction false} PhaseBInDocumentOrder(doc: Document)
    ensures var b := PhaseB(doc, QuerySelectorAll(doc, Everywhere, AnchorSelectors));
            var idx := SelectedIndices(doc, Everywhere, AnchorSelectors, 0);
            |b| == |idx| && forall k :: 0 <= k < |b| ==> b[k] == AnchorLink(doc, doc[idx[k]])
  {
    QuerySelectorAllInOrder(doc, Everywhere, AnchorSelectors);
  }

  // ---------------------------------------------------------------------------
  // Deduplication (lines 241-249)
  // ---------------------------------------------------------------------------

  /** No two entries share an address. */
  predicate DistinctUrls(links: seq<MirrorLink>) {
    forall i, j :: 0 <= i < |links| && 0 <= j < |links| && i != j ==> links[i].url != links[j].url
  }

  /** `a` is `b` with some entries left out, order kept. */
  predicate Subsequence(a: seq<MirrorLink>, b: seq<MirrorLink>) {
    if a == [] then true
    else if b == [] then false
    else if a[0] == b[0] then Subsequence(a[1..], b[1..])
    else Subsequence(a, b[1..])
  }

  /** The first entry of `links` with address `u`. */
  function FirstWithUrl(links: seq<MirrorLink>, u: string): (r: Option<MirrorLink>)
    ensures r.Some? ==> r.value in links && r.value.url == u
    ensures r.None? ==> forall k :: 0 <= k < |links| ==> links[k].url != u
  {
    if links == [] then None
    else if links[0].url == u then Some(links[0])
    else FirstWithUrl(links[1..], u)
  }

  /** `FirstWithUrl` is the first entry with the address: when `links[k]` has
      it and no entry before does, the result is `links[k]`, and every result
      is such an entry. */
  lemma {:induction false} FirstWithUrlIsFirst(links: seq<MirrorLink>, u: string, n: nat)
    requires n == |links|
    ensures forall k :: 0 <= k < |links| && links[k].url == u && NoUrlBefore(links, u, k) ==>
              FirstWithUrl(links, u) == Some(links[k])
    ensures FirstWithUrl(links, u).Some? ==>
              exists k :: 0 <= k < |links| && FirstWithUrl(links, u) == Some(links[k]) && NoUrlBefore(links, u, k)
  {
    forall k | 0 <= k < |links| && links[k].url == u && NoUrlBefore(links, u, k)
      ensures FirstWithUrl(links, u) == Some(links[k])
    {
      FirstWithUrlAt(links, u, k);
    }
    if FirstWithUrl(links, u).Some? {
      FirstWithUrlFound(links, u, n);
    }
  }

  /** The first entry with address `u` is the one found. */
  lemma {:induction false} FirstWithUrlAt(links: seq<MirrorLink>, u: string, k: nat)
    requires k < |links| && links[k].url == u && NoUrlBefore(links, u, k)
    ensures FirstWithUrl(links, u) == Some(links[k])
    decreases k
  {
    if k > 0 {
      assert links[0].url != u;
      assert links[1..][k - 1] == links[k];
      assert NoUrlBefore(links[1..], u, k - 1);
      FirstWithUrlAt(links[1..], u, k - 1);
    }
  }

  /** A found entry sits at an index with no earlier entry of its address. */
  lemma {:induction false} FirstWithUrlFound(links: seq<MirrorLink>, u: string, n: nat)
    requires n == |links| && FirstWithUrl(links, u).Some?
    ensures exists k :: 0 <= k < |links| && FirstWithUrl(links, u) == Some(links[k]) && NoUrlBefore(links, u, k)
    decreases n
  {
    if links[0].url == u {
      assert NoUrlBefore(links, u, 0);
    } else {
      FirstWithUrlFound(links[1..], u, n - 1);
      var k :| 0 <= k < |links[1..]| && FirstWithUrl(links[1..], u) == Some(links[1..][k]) &&
               NoUrlBefore(links[1..], u, k);
      assert links[k + 1] == links[1..][k];
      assert NoUrlBefore(links, u, k + 1);
    }
  }

  /** No entry before index `k` has address `u`. */
  predicate NoUrlBefore(links: seq<MirrorLink>, u: string, k: int)
    requires k <= |links|
  {
    forall j :: 0 <= j < k ==> links[j].url != u
  }

  /** The scan of `links` with the addresses in `seen` already taken. */
  function DedupFrom(links: seq<MirrorLink>, seen: set<string>): (r: seq<MirrorLink>)
    ensures |r| <= |links|
    ensures forall k :: 0 <= k < |r| ==> r[k].url !in seen
  {
    if links == [] then []
    else if links[0].url in seen then DedupFrom(links[1..], seen)
    else [links[0]] + DedupFrom(links[1..], seen + {links[0].url})
  }

  /** The deduplicated list. */
  function Dedup(links: seq<MirrorLink>): seq<MirrorLink> {
    DedupFrom(links, {})
  }

  /** The loop of lines 242-249, with its set of seen addresses. */
  method DedupLoop(links: seq<MirrorLink>) returns (unique: seq<MirrorLink>)
    ensures unique == Dedup(links)
    ensures DistinctUrls(unique) && Subsequence(unique, links)
  {
    unique := [];
    var seen: set<string> := {};
    var i := 0;
    while i < |links|
      invariant 0 <= i <= |links|
      invariant unique + DedupFrom(links[i..], seen) == Dedup(links)
    {
      var link := links[i];
      assert links[i..] == [link] + links[i + 1..];
      if link.url !in seen {
        seen := seen + {link.url};
        unique := unique + [link];
      }
      i := i + 1;
    }
    assert links[i..] == [];
    DedupProperties(links);
  }

  /** The three promises of the deduplication: distinct addresses, a
      subsequence of the input, and for every address of the input exactly its
      first entry. */
  lemma {:induction false} DedupProperties(links: seq<MirrorLink>)
    ensures DistinctUrls(Dedup(links))
    ensures Subsequence(Dedup(links), links)
    ensures forall k :: 0 <= k < |Dedup(links)| ==> FirstWithUrl(links, Dedup(links)[k].url) == Some(Dedup(links)[k])
    ensures forall u :: FirstWithUrl(links, u).Some? ==> FirstWithUrl(links, u).value in Dedup(links)
  {
    DedupDistinct(links, {});
    DedupSubsequence(links, {});
    DedupFirst(links, {});
  }

  lemma {:induction false} DedupDistinct(links: seq<MirrorLink>, seen: set<string>)
    ensures DistinctUrls(DedupFrom(links, seen))
    decreases |links|
  {
    if links != [] {
      var x := links[0];
      if x.url in seen {
        DedupDistinct(links[1..], seen);
      } else {
        var rest := DedupFrom(links[1..], seen + {x.url});
        DedupDistinct(links[1..], seen + {x.url});
        var r := [x] + rest;
        assert DedupFrom(links, seen) == r;
        forall i, j | 0 <= i < |r| && 0 <= j < |r| && i != j ensures r[i].url != r[j].url {
          if i == 0 { assert r[j] == rest[j - 1]; }
          else if j == 0 { assert r[i] == rest[i - 1]; }
          else { assert r[i] == rest[i - 1] && r[j] == rest[j - 1]; }
        }
      }
    }
  }

  lemma {:induction false} DedupSubsequence(links: seq<MirrorLink>, seen: set<string>)
    ensures Subsequence(DedupFrom(links, seen), links)
    decreases |links|
  {
    if links != [] {
      var x := links[0];
      if x.url in seen {
        DedupSubsequence(links[1..], seen);
        SubsequenceDropFront(DedupFrom(links[1..], seen), links);
      } else {
        var rest := DedupFrom(links[1..], seen + {x.url});
        DedupSubsequence(links[1..], seen + {x.url});
        var r := [x] + rest;
        assert r[0] == links[0] && r[1..] == rest;
      }
    }
  }

  /** A subsequence of the tail is a subsequence of the whole. */
  lemma {:induction false} SubsequenceDropFront(a: seq<MirrorLink>, b: seq<MirrorLink>)
    requires b != [] && Subsequence(a, b[1..])
    ensures Subsequence(a, b)
    decreases |b|, |a|
  {
    if a != [] && a[0] == b[0] {
      // `a[1..]` is a subsequence of `b[1..]` already, a fortiori of `b[2..]`
      SubsequenceTail(a, b[1..]);
    }
  }

  /** Dropping the first element of a subsequence keeps it a subsequence. */
  lemma {:induction false} SubsequenceTail(a: seq<MirrorLink>, b: seq<MirrorLink>)
    requires a != [] && Subsequence(a, b)
    ensures Subsequence(a[1..], b)
    decreases |b|, |a|
  {
    assert b != [];
    if a[0] == b[0] {
      if a[1..] != [] {
        SubsequenceDropFront(a[1..], b);
      }
    } else {
      SubsequenceTail(a, b[1..]);
      if a[1..] != [] {
        SubsequenceDropFront(a[1..], b);
      }
    }
  }

  lemma {:induction false} DedupFirst(links: seq<MirrorLink>, seen: set<string>)
    ensures forall k :: 0 <= k < |DedupFrom(links, seen)| ==>
              FirstWithUrl(links, DedupFrom(links, seen)[k].url) == Some(DedupFrom(links, seen)[k])
    ensures forall u :: u !in seen && FirstWithUrl(links, u).Some? ==>
              FirstWithUrl(links, u).value in DedupFrom(links, seen)
    decreases |links|
  {
    if links != [] {
      var x := links[0];
      var tail := links[1..];
      if x.url in seen {
        DedupFirst(tail, seen);
        var r := DedupFrom(tail, seen);
        assert DedupFrom(links, seen) == r;
        forall k | 0 <= k < |r| ensures FirstWithUrl(links, r[k].url) == Some(r[k]) {
          assert r[k].url != x.url;
        }
      } else {
        var seen' := seen + {x.url};
        DedupFirst(tail, seen');
        var rest := DedupFrom(tail, seen');
        var r := [x] + rest;
        assert DedupFrom(links, seen) == r;
        forall k | 0 <= k < |r| ensures FirstWithUrl(links, r[k].url) == Some(r[k]) {
          if k > 0 {
            assert r[k] == rest[k - 1];
            assert rest[k - 1].url !in seen';
          }
        }
        forall u | u !in seen && FirstWithUrl(links, u).Some? ensures FirstWithUrl(links, u).value in r {
          if u != x.url {
            assert FirstWithUrl(links, u) == FirstWithUrl(tail, u);
          }
        }
      }
    }
  }

  // ---------------------------------------------------------------------------
  // The whole discovery
  // ---------------------------------------------------------------------------

  /** Lines 211-254 after Phase A: Phase B's entries replace Phase A's when
      Phase A kept none, and the result is deduplicated. A fault of Phase A
      aborts the whole discovery. */
  function Combine(a: Result<seq<MirrorLink>, Fault>, b: seq<MirrorLink>): (r: Result<seq<MirrorLink>, Fault>)
    ensures r.Failure? <==> a.Failure?
    ensures r.Success? ==> DistinctUrls(r.value)
    ensures r.Success? && |a.value| > 0 ==> Subsequence(r.value, a.value)
    ensures r.Success? && |a.value| == 0 ==> Subsequence(r.value, b)
    // each address of the chosen list keeps exactly its first entry
    ensures r.Success? ==>
              var links := if |a.value| == 0 then b else a.value;
              && (forall k :: 0 <= k < |r.value| ==> FirstWithUrl(links, r.value[k].url) == Some(r.value[k]))
              && (forall u :: FirstWithUrl(links, u).Some? ==> FirstWithUrl(links, u).value in r.value)
  {
    if a.Failure? then Failure(a.error)
    else
      var links := if |a.value| == 0 then b else a.value;
      DedupProperties(links);
      Success(Dedup(links))
  }

  /** `extractEpisodeLinks`: Phase A over every container; when it keeps no
      link, Phase B over every matching anchor; then deduplication. */
  function EpisodeLinks(doc: Document): Result<seq<MirrorLink>, Fault> {
    Combine(
      PhaseA(ContainerOutcomes(doc, QuerySelectorAll(doc, Everywhere, ContainerSelectors))),
      PhaseB(doc, QuerySelectorAll(doc, Everywhere, AnchorSelectors)))
  }

  /** Some entry of `links` has address `u`. */
  predicate HasUrl(links: seq<MirrorLink>, u: string) {
    exists k :: 0 <= k < |links| && links[k].url == u
  }

  /** Where the entries of a result `r` over containers `cs` and anchors
      `anchors` come from: `r` is a fault exactly when some container throws;
      otherwise every address a container found is present, and, when no
      container found one, every address of an anchor is present instead.
      When some container found one, the entries are Phase A's, in container
      order. */
  predicate SourcesHold(doc: Document, cs: seq<Element>, anchors: seq<Element>, r: Result<seq<MirrorLink>, Fault>) {
    && (r.Failure? <==> exists i :: 0 <= i < |cs| && ContainerLink(doc, cs[i]).Failure?)
    && (r.Success? ==> forall i :: 0 <= i < |cs| && ContainerLink(doc, cs[i]).Success? && ContainerLink(doc, cs[i]).value.Some? ==>
                         HasUrl(r.value, ContainerLink(doc, cs[i]).value.value.url))
    && (r.Success? && (forall i :: 0 <= i < |cs| ==> ContainerLink(doc, cs[i]) == Success(None)) ==>
          forall k :: 0 <= k < |anchors| ==> HasUrl(r.value, anchors[k].href))
    && (r.Success? && (exists i :: 0 <= i < |cs| && ContainerLink(doc, cs[i]).Success? && ContainerLink(doc, cs[i]).value.Some?) ==>
          var a := PhaseA(ContainerOutcomes(doc, cs));
          a.Success? && Subsequence(r.value, a.value))
  }

  /** What `extractEpisodeLinks` promises: the sources above hold for the
      containers and anchors of the page, and the addresses are distinct. */
  lemma {:induction false} EpisodeLinksSources(doc: Document)
    ensures SourcesHold(doc, QuerySelectorAll(doc, Everywhere, ContainerSelectors),
                        QuerySelectorAll(doc, Everywhere, AnchorSelectors), EpisodeLinks(doc))
    ensures EpisodeLinks(doc).Success? ==> DistinctUrls(EpisodeLinks(doc).value)
  {
    ContainerSources(doc, QuerySelectorAll(doc, Everywhere, ContainerSelectors),
                     QuerySelectorAll(doc, Everywhere, AnchorSelectors));
  }

  /** `EpisodeLinksSources` for any containers and anchors. */
  lemma {:induction false} ContainerSources(doc: Document, cs: seq<Element>, anchors: seq<Element>)
    ensures SourcesHold(doc, cs, anchors, Combine(PhaseA(ContainerOutcomes(doc, cs)), PhaseB(doc, anchors)))
  {
    var outs := ContainerOutcomes(doc, cs);
    var b := PhaseB(doc, anchors);
    CombineSources(outs, b);
    ContainersFail(doc, cs, outs);
    ContainersFound(doc, cs, outs);
    if forall i :: 0 <= i < |cs| ==> ContainerLink(doc, cs[i]) == Success(None) {
      assert forall i :: 0 <= i < |outs| ==> outs[i] == Success(None);
    }
    assert forall k :: 0 <= k < |anchors| ==> b[k].url == anchors[k].href;
  }

  /** Some container throws exactly when some outcome is a fault. */
  lemma {:induction false} ContainersFail(doc: Document, cs: seq<Element>, outs: seq<Result<Option<MirrorLink>, Fault>>)
    requires outs == ContainerOutcomes(doc, cs)
    ensures (exists i :: 0 <= i < |outs| && outs[i].Failure?) <==>
            (exists i :: 0 <= i < |cs| && ContainerLink(doc, cs[i]).Failure?)
  {
    if exists i :: 0 <= i < |outs| && outs[i].Failure? {
      var i :| 0 <= i < |outs| && outs[i].Failure?;
      assert i < |cs| && outs[i] == ContainerLink(doc, cs[i]);
    }
    if exists i :: 0 <= i < |cs| && ContainerLink(doc, cs[i]).Failure? {
      var i :| 0 <= i < |cs| && ContainerLink(doc, cs[i]).Failure?;
      assert outs[i] == ContainerLink(doc, cs[i]);
    }
  }

  /** Some container keeps an entry exactly when some outcome holds one. */
  lemma {:induction false} ContainersFound(doc: Document, cs: seq<Element>, outs: seq<Result<Option<MirrorLink>, Fault>>)
    requires outs == ContainerOutcomes(doc, cs)
    ensures (exists i :: 0 <= i < |cs| && ContainerLink(doc, cs[i]).Success? && ContainerLink(doc, cs[i]).value.Some?) ==>
            (exists i :: 0 <= i < |outs| && outs[i].Success? && outs[i].value.Some?)
    ensures forall i :: 0 <= i < |cs| ==> ContainerLink(doc, cs[i]) == outs[i]
  {
    if exists i :: 0 <= i < |cs| && ContainerLink(doc, cs[i]).Success? && ContainerLink(doc, cs[i]).value.Some? {
      var i :| 0 <= i < |cs| && ContainerLink(doc, cs[i]).Success? && ContainerLink(doc, cs[i]).value.Some?;
      assert outs[i] == ContainerLink(doc, cs[i]);
    }
  }

  /** `EpisodeLinksSources` for any container outcomes and Phase B entries. */
  lemma {:induction false} CombineSources(outs: seq<Result<Option<MirrorLink>, Fault>>, b: seq<MirrorLink>)
    ensures var r := Combine(PhaseA(outs), b);
            r.Failure? <==> exists i :: 0 <= i < |outs| && outs[i].Failure?
    ensures var r := Combine(PhaseA(outs), b);
            r.Success? ==> forall i :: 0 <= i < |outs| && outs[i].Success? && outs[i].value.Some? ==>
                             HasUrl(r.value, outs[i].value.value.url)
    ensures var r := Combine(PhaseA(outs), b);
            r.Success? && (forall i :: 0 <= i < |outs| ==> outs[i] == Success(None)) ==>
              forall k :: 0 <= k < |b| ==> HasUrl(r.value, b[k].url)
    ensures var r := Combine(PhaseA(outs), b);
            r.Success? && (exists i :: 0 <= i < |outs| && outs[i].Success? && outs[i].value.Some?) ==>
              Subsequence(r.value, PhaseA(outs).value)
  {
    var a := PhaseA(outs);
    var r := Combine(a, b);
    if r.Success? {
      PhaseAKeepsEveryLink(outs, |outs|);
      var links := if |a.value| == 0 then b else a.value;
      forall i | 0 <= i < |outs| && outs[i].Success? && outs[i].value.Some?
        ensures HasUrl(r.value, outs[i].value.value.url)
      {
        FoundUrlKept(links, r.value, outs[i].value.value.url, outs[i].value.value);
      }
      if forall i :: 0 <= i < |outs| ==> outs[i] == Success(None) {
        forall k | 0 <= k < |b| ensures HasUrl(r.value, b[k].url) {
          FoundUrlKept(links, r.value, b[k].url, b[k]);
        }
      }
    }
  }

  /** An address of `links` whose first entry is kept is present in `r`. */
  lemma {:induction false} FoundUrlKept(links: seq<MirrorLink>, r: seq<MirrorLink>, u: string, x: MirrorLink)
    requires x in links && x.url == u
    requires forall v :: FirstWithUrl(links, v).Some? ==> FirstWithUrl(links, v).value in r
    ensures HasUrl(r, u)
  {
    var f := FirstWithUrl(links, u);
    assert f.Some?;
    var k :| 0 <= k < |r| && r[k] == f.value;
  }

  /** When Phase A keeps nothing, every entry comes from an anchor to a listed
      host, recorded as Phase B describes it. */
  lemma {:induction false} PhaseBEntriesComeFromAnchors(doc: Document, b: seq<MirrorLink>, r: seq<MirrorLink>)
    requires b == PhaseB(doc, QuerySelectorAll(doc, Everywhere, AnchorSelectors))
    requires Subsequence(r, b)
    ensures forall k :: 0 <= k < |r| ==>
              exists e :: e in doc && Selected(e, Everywhere, AnchorSelectors) && r[k] == AnchorLink(doc, e)
  {
    var anchors := QuerySelectorAll(doc, Everywhere, AnchorSelectors);
    forall k | 0 <= k < |r|
      ensures exists e :: e in doc && Selected(e, Everywhere, AnchorSelectors) && r[k] == AnchorLink(doc, e)
    {
      SubsequenceMember(r, b, r[k]);
      var i :| 0 <= i < |b| && b[i] == r[k];
      assert anchors[i] in anchors;
    }
  }

  /** Entries of a subsequence are entries of the sequence. */
  lemma {:induction false} SubsequenceMember(a: seq<MirrorLink>, b: seq<MirrorLink>, x: MirrorLink)
    requires Subsequence(a, b) && x in a
    ensures x in b
    decreases |b|
  {
    assert b != [];
    if a[0] == b[0] {
      if x != a[0] {
        assert x in a[1..];
        SubsequenceMember(a[1..], b[1..], x);
      }
    } else {
      SubsequenceMember(a, b[1..], x);
    }
  }
}

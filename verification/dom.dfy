/**
 * An abstract rendered document. Elements are listed in document order; CSS
 * selectors are opaque names, and an element records which of them it satisfies.
 * Queries return elements in document order, whatever the order of the
 * selectors in a comma-joined list.
 */
module Dom {
  import opened Wrappers

  /** One element with the DOM properties the extension reads. Each string
      property is "" when the element has no such property or attribute. */
  datatype Element = Element(
    id: nat,                // identity, used by `ancestors`
    tag: string,            // `tagName`, upper case for HTML elements ("META", "VIDEO", ...)
    matches: set<string>,   // the simple selectors this element satisfies
    text: string,           // `textContent`
    innerText: string,      // `innerText`
    content: string,        // `content` (meta elements)
    src: string,            // `src` (resolved, images)
    poster: string,         // `poster` (video elements)
    href: string,           // `href` (resolved, anchors)
    ancestors: seq<nat>)    // ids of the enclosing elements, nearest first

  /** The document: every element, in document order. */
  type Document = seq<Element>

  /** Where a query looks: the whole document (`document.querySelector`) or the
      descendants of one element (`element.querySelector`, which never returns
      the element itself). */
  datatype Scope = Everywhere | Under(root: nat)

  predicate InScope(e: Element, scope: Scope) {
    match scope
    case Everywhere => true
    case Under(root) => root in e.ancestors
  }

  /** `e` satisfies the comma-joined selector list `sels`. */
  predicate MatchesAny(e: Element, sels: seq<string>) {
    exists sel :: sel in sels && sel in e.matches
  }

  /** `e` is a result of a query with `sels` in `scope`. */
  predicate Selected(e: Element, scope: Scope, sels: seq<string>) {
    InScope(e, scope) && MatchesAny(e, sels)
  }

  /** The index of the first selected element at or after `from`. */
  function FirstSelectedFrom(doc: Document, scope: Scope, sels: seq<string>, from: nat): (r: Option<nat>)
    requires from <= |doc|
    ensures r.Some? ==> from <= r.value < |doc| && Selected(doc[r.value], scope, sels)
    ensures r.Some? ==> forall j :: from <= j < r.value ==> !Selected(doc[j], scope, sels)
    ensures r.None? ==> forall j :: from <= j < |doc| ==> !Selected(doc[j], scope, sels)
    decreases |doc| - from
  {
    if from == |doc| then None
    else if Selected(doc[from], scope, sels) then Some(from)
    else FirstSelectedFrom(doc, scope, sels, from + 1)
  }

  /** The index of the element `querySelector` returns. */
  function FirstSelected(doc: Document, scope: Scope, sels: seq<string>): (r: Option<nat>)
    ensures r.Some? ==> r.value < |doc| && Selected(doc[r.value], scope, sels)
    ensures r.Some? ==> forall j :: 0 <= j < r.value ==> !Selected(doc[j], scope, sels)
    ensures r.None? ==> forall j :: 0 <= j < |doc| ==> !Selected(doc[j], scope, sels)
  {
    FirstSelectedFrom(doc, scope, sels, 0)
  }

  /** `querySelector(sels)`: the first selected element in document order. */
  function QuerySelector(doc: Document, scope: Scope, sels: seq<string>): (r: Option<Element>)
    ensures r.None? <==> forall j :: 0 <= j < |doc| ==> !Selected(doc[j], scope, sels)
    ensures r.Some? ==> Selected(r.value, scope, sels) && r.value in doc
  {
    match FirstSelected(doc, scope, sels)
    case None => None
    case Some(i) => Some(doc[i])
  }

  /** `querySelectorAll(sels)`: every selected element, in document order. */
  function QuerySelectorAll(doc: Document, scope: Scope, sels: seq<string>): (r: seq<Element>)
    ensures |r| <= |doc|
    ensures forall e :: e in r <==> e in doc && Selected(e, scope, sels)
  {
    if doc == [] then []
    else if Selected(doc[0], scope, sels) then [doc[0]] + QuerySelectorAll(doc[1..], scope, sels)
    else QuerySelectorAll(doc[1..], scope, sels)
  }

  /** The first element of the document with identity `id`. */
  function Lookup(doc: Document, id: nat): (r: Option<Element>)
    ensures r.Some? ==> r.value in doc && r.value.id == id
    ensures r.None? ==> forall e :: e in doc ==> e.id != id
  {
    if doc == [] then None
    else if doc[0].id == id then Some(doc[0])
    else Lookup(doc[1..], id)
  }

  /** The nearest of the ancestors `ids` that satisfies `sels`. */
  function NearestMatching(doc: Document, ids: seq<nat>, sels: seq<string>): (r: Option<Element>)
    ensures r.Some? ==> MatchesAny(r.value, sels) && r.value.id in ids && r.value in doc
  {
    if ids == [] then None
    else match Lookup(doc, ids[0])
      case Some(a) =>
        if MatchesAny(a, sels) then Some(a) else NearestMatching(doc, ids[1..], sels)
      case None => NearestMatching(doc, ids[1..], sels)
  }

  /** `e.closest(sels)`: `e` itself when it satisfies `sels`, otherwise its nearest
      ancestor that does. */
  function Closest(doc: Document, e: Element, sels: seq<string>): (r: Option<Element>)
    ensures r.Some? ==> MatchesAny(r.value, sels)
    ensures r.Some? ==> r.value == e || r.value.id in e.ancestors
    ensures MatchesAny(e, sels) ==> r == Some(e)
  {
    if MatchesAny(e, sels) then Some(e) else NearestMatching(doc, e.ancestors, sels)
  }

  // ---------------------------------------------------------------------------
  // Properties
  // ---------------------------------------------------------------------------

  /** `querySelector` returns the first selected element in document order:
      when `doc[i]` is selected and nothing before it is, the result is
      `doc[i]`, and every result is such an element. */
  lemma {:induction false} QuerySelectorIsFirst(doc: Document, scope: Scope, sels: seq<string>)
    ensures forall i :: FirstSelectedAt(doc, scope, sels, i) ==> QuerySelector(doc, scope, sels) == Some(doc[i])
    ensures QuerySelector(doc, scope, sels).Some? ==>
              exists i :: FirstSelectedAt(doc, scope, sels, i) && QuerySelector(doc, scope, sels) == Some(doc[i])
  {
    var f := FirstSelected(doc, scope, sels);
    if f.Some? {
      assert QuerySelector(doc, scope, sels) == Some(doc[f.value]);
      assert NoneSelectedBefore(doc, scope, sels, f.value);
    }
    forall i | FirstSelectedAt(doc, scope, sels, i)
      ensures QuerySelector(doc, scope, sels) == Some(doc[i])
    {
      assert f.Some?;
      assert !(f.value < i);
      assert !(i < f.value);
    }
  }

  /** `doc[i]` is selected and no element before it is. */
  predicate FirstSelectedAt(doc: Document, scope: Scope, sels: seq<string>, i: int) {
    0 <= i < |doc| && Selected(doc[i], scope, sels) && NoneSelectedBefore(doc, scope, sels, i)
  }

  /** No element is selected. */
  predicate NoneSelected(doc: Document, scope: Scope, sels: seq<string>) {
    forall j :: 0 <= j < |doc| ==> !Selected(doc[j], scope, sels)
  }

  /** No element before index `i` is selected. */
  predicate NoneSelectedBefore(doc: Document, scope: Scope, sels: seq<string>, i: int)
    requires i <= |doc|
  {
    forall j :: 0 <= j < i ==> !Selected(doc[j], scope, sels)
  }

  /** The indices of the selected elements at or after `from`, in increasing
      order. */
  function SelectedIndices(doc: Document, scope: Scope, sels: seq<string>, from: nat): (r: seq<nat>)
    requires from <= |doc|
    ensures forall k :: 0 <= k < |r| ==> from <= r[k] < |doc| && Selected(doc[r[k]], scope, sels)
    ensures forall a, b :: 0 <= a < b < |r| ==> r[a] < r[b]
    ensures forall j :: from <= j < |doc| && Selected(doc[j], scope, sels) ==> j in r
    decreases |doc| - from
  {
    if from == |doc| then []
    else if Selected(doc[from], scope, sels) then [from] + SelectedIndices(doc, scope, sels, from + 1)
    else SelectedIndices(doc, scope, sels, from + 1)
  }

  /** `querySelectorAll` lists the selected elements in document order, each
      once: its `k`-th result is the element at the `k`-th selected index. */
  lemma {:induction false} QuerySelectorAllInOrder(doc: Document, scope: Scope, sels: seq<string>)
    ensures var r := QuerySelectorAll(doc, scope, sels);
            var idx := SelectedIndices(doc, scope, sels, 0);
            |r| == |idx| && forall k :: 0 <= k < |r| ==> r[k] == doc[idx[k]]
  {
    assert doc[0..] == doc;
    QuerySelectorAllFrom(doc, scope, sels, 0, |doc|);
  }

  /** `r` lists the elements of `doc` at the indices `idx`, in that order. */
  predicate ListsIndices(doc: Document, r: seq<Element>, idx: seq<nat>) {
    |r| == |idx| && forall k :: 0 <= k < |r| ==> idx[k] < |doc| && r[k] == doc[idx[k]]
  }

  lemma {:induction false} QuerySelectorAllFrom(doc: Document, scope: Scope, sels: seq<string>, from: nat, n: nat)
    requires from <= |doc| && n == |doc| - from
    ensures ListsIndices(doc, QuerySelectorAll(doc[from..], scope, sels), SelectedIndices(doc, scope, sels, from))
    decreases n
  {
    if n > 0 {
      QuerySelectorAllFrom(doc, scope, sels, from + 1, n - 1);
      var t := doc[from..];
      assert t[0] == doc[from] && t[1..] == doc[from + 1..];
      var rest := QuerySelectorAll(doc[from + 1..], scope, sels);
      var restIdx := SelectedIndices(doc, scope, sels, from + 1);
      if Selected(doc[from], scope, sels) {
        assert QuerySelectorAll(t, scope, sels) == [doc[from]] + rest;
        assert SelectedIndices(doc, scope, sels, from) == [from] + restIdx;
        ListsIndicesCons(doc, from, rest, restIdx);
      } else {
        assert QuerySelectorAll(t, scope, sels) == rest;
        assert SelectedIndices(doc, scope, sels, from) == restIdx;
      }
    }
  }

  lemma {:induction false} ListsIndicesCons(doc: Document, i: nat, rest: seq<Element>, restIdx: seq<nat>)
    requires i < |doc| && ListsIndices(doc, rest, restIdx)
    ensures ListsIndices(doc, [doc[i]] + rest, [i] + restIdx)
  {
    var r := [doc[i]] + rest;
    var idx := [i] + restIdx;
    forall k | 0 <= k < |r| ensures idx[k] < |doc| && r[k] == doc[idx[k]] {
      if k > 0 {
        assert r[k] == rest[k - 1] && idx[k] == restIdx[k - 1];
      }
    }
  }

  /** The ancestor with identity `id` exists in `doc` and satisfies `sels`. */
  predicate AncestorMatches(doc: Document, id: nat, sels: seq<string>) {
    var a := Lookup(doc, id);
    a.Some? && MatchesAny(a.value, sels)
  }

  /** `NearestMatching` finds nothing exactly when no listed ancestor matches,
      and otherwise the first listed one that does. */
  lemma {:induction false} NearestMatchingIsNearest(doc: Document, ids: seq<nat>, sels: seq<string>, n: nat)
    requires n == |ids|
    ensures NearestMatching(doc, ids, sels).None? <==>
              forall k :: 0 <= k < |ids| ==> !AncestorMatches(doc, ids[k], sels)
    ensures NearestMatching(doc, ids, sels).Some? ==>
              exists k :: 0 <= k < |ids| && Lookup(doc, ids[k]) == NearestMatching(doc, ids, sels) &&
                          AncestorMatches(doc, ids[k], sels) &&
                          forall j :: 0 <= j < k ==> !AncestorMatches(doc, ids[j], sels)
    decreases n
  {
    if n > 0 {
      NearestMatchingIsNearest(doc, ids[1..], sels, n - 1);
      if !AncestorMatches(doc, ids[0], sels) {
        assert NearestMatching(doc, ids, sels) == NearestMatching(doc, ids[1..], sels);
        forall k | 1 <= k < |ids| ensures ids[k] == ids[1..][k - 1] {}
        if NearestMatching(doc, ids, sels).Some? {
          var k :| 0 <= k < |ids[1..]| && Lookup(doc, ids[1..][k]) == NearestMatching(doc, ids, sels) &&
                   AncestorMatches(doc, ids[1..][k], sels) &&
                   forall j :: 0 <= j < k ==> !AncestorMatches(doc, ids[1..][j], sels);
          assert Lookup(doc, ids[k + 1]) == NearestMatching(doc, ids, sels);
        }
      }
    }
  }

  /** `closest`: the element itself when it matches; otherwise nothing exactly
      when no ancestor matches, and else the nearest ancestor that does. */
  lemma {:induction false} ClosestIsNearest(doc: Document, e: Element, sels: seq<string>)
    ensures Closest(doc, e, sels).None? <==>
              !MatchesAny(e, sels) && forall k :: 0 <= k < |e.ancestors| ==> !AncestorMatches(doc, e.ancestors[k], sels)
    ensures Closest(doc, e, sels).Some? && !MatchesAny(e, sels) ==>
              exists k :: 0 <= k < |e.ancestors| && Lookup(doc, e.ancestors[k]) == Closest(doc, e, sels) &&
                          forall j :: 0 <= j < k ==> !AncestorMatches(doc, e.ancestors[j], sels)
  {
    NearestMatchingIsNearest(doc, e.ancestors, sels, |e.ancestors|);
  }
}

/**
 * Title normalisation applied by the content script before it publishes a
 * record: strip one leading and one trailing dash separator, collapse white
 * space, trim, clamp to 100 characters with an ellipsis, and fall back to a
 * sentinel when nothing is left.
 */
module TitleCleaning {
  import opened Text

  const MaxTitleLength: nat := 100
  const Ellipsis := "..."
  const UnknownTitle := "Unknown Title"

  // ---------------------------------------------------------------------------
  // Vocabulary
  // ---------------------------------------------------------------------------

  /** The characters of `s` that are not white space, in order. */
  function NonSpace(s: string): (r: string)
    ensures |r| <= |s|
    ensures forall i :: 0 <= i < |r| ==> !IsJsSpace(r[i])
  {
    if s == [] then []
    else if IsJsSpace(s[0]) then NonSpace(s[1..])
    else [s[0]] + NonSpace(s[1..])
  }

  /** Every white-space character is a plain space and no two are adjacent. */
  predicate SingleSpaced(s: string) {
    forall i {:trigger MisplacedSpace(s, i)} :: 0 <= i < |s| ==> !MisplacedSpace(s, i)
  }

  /** The character at `i` is white space other than a plain space, or white
      space right after white space. */
  predicate MisplacedSpace(s: string, i: int)
    requires 0 <= i < |s|
  {
    IsJsSpace(s[i]) && (s[i] != ' ' || (i > 0 && IsJsSpace(s[i - 1])))
  }

  /** The shape of every cleaned title: single-spaced, no space at either end. */
  predicate Normalised(s: string) {
    SingleSpaced(s) && (s != [] ==> !IsJsSpace(s[0]) && !IsJsSpace(s[|s| - 1]))
  }

  // ---------------------------------------------------------------------------
  // The cleaning steps
  // ---------------------------------------------------------------------------

  /** `replace(/^\s*-\s*\/, '')`: when the first non-space character is a dash,
      drop it together with the white space around it. */
  function StripLeadingDash(s: string): (r: string)
    ensures |r| <= |s| && r == s[|s| - |r|..]
  {
    var t := TrimStart(s);
    if t != [] && t[0] == '-' then TrimStart(t[1..]) else s
  }

  /** `replace(/\s*-\s*$/, '')`: when the last non-space character is a dash,
      drop it together with the white space around it (the leftmost match of
      the pattern starts at the white-space run before that dash). */
  function StripTrailingDash(s: string): (r: string)
    ensures |r| <= |s| && r == s[..|r|]
  {
    var t := TrimEnd(s);
    if t != [] && t[|t| - 1] == '-' then TrimEnd(t[..|t| - 1]) else s
  }

  /** `replace(/\s+/g, ' ')`: every maximal white-space run becomes one space. */
  function Collapse(s: string): (r: string)
    ensures SingleSpaced(r)
    ensures r == [] <==> s == []
    ensures r != [] ==> (IsJsSpace(r[0]) <==> IsJsSpace(s[0]))
  {
    CollapseRunSingleSpaced(s, false);
    CollapseRun(s, false)
  }

  /** `Collapse` scanning from a point where `inRun` says whether the character
      just before was white space (whose run has then already produced its ' '). */
  function CollapseRun(s: string, inRun: bool): (r: string)
    ensures inRun && r != [] ==> !IsJsSpace(r[0])
    ensures !inRun ==> (r == [] <==> s == [])
    ensures !inRun && r != [] ==> (IsJsSpace(r[0]) <==> IsJsSpace(s[0]))
  {
    if s == [] then []
    else if IsJsSpace(s[0]) then
      var rest := CollapseRun(s[1..], true);
      if inRun then rest else [' '] + rest
    else
      [s[0]] + CollapseRun(s[1..], false)
  }

  /** `CollapseRun` never leaves two white-space characters in a row or a
      white-space character other than ' '. */
  lemma {:induction false} CollapseRunSingleSpaced(s: string, inRun: bool)
    ensures SingleSpaced(CollapseRun(s, inRun))
    decreases |s|
  {
    if s != [] {
      if IsJsSpace(s[0]) {
        var rest := CollapseRun(s[1..], true);
        CollapseRunSingleSpaced(s[1..], true);
        if !inRun {
          SingleSpacedCons(' ', rest);
        }
      } else {
        var rest := CollapseRun(s[1..], false);
        CollapseRunSingleSpaced(s[1..], false);
        SingleSpacedCons(s[0], rest);
      }
    }
  }

  /** Everything after the leading-dash strip: trailing-dash strip, collapse, trim. */
  function Tidy(s: string): string {
    Trim(Collapse(StripTrailingDash(s)))
  }

  /** Lines 117-118 of the content script: dash strips, collapse, trim. */
  function Clean(s: string): string {
    Tidy(StripLeadingDash(s))
  }

  /** Lines 119-121: keep at most 100 characters and mark a cut with "...". */
  function Clamp(s: string): string {
    if |s| > MaxTitleLength then s[..MaxTitleLength] + Ellipsis else s
  }

  /** The title the content script publishes (lines 116-126): the cleaned and
      clamped title, or the sentinel when that is empty. */
  function PublishTitle(raw: string): (r: string)
    ensures r != []
    ensures |r| <= MaxTitleLength + |Ellipsis|
    ensures Clean(raw) == [] ==> r == UnknownTitle
    ensures Clean(raw) != [] && |Clean(raw)| <= MaxTitleLength ==> r == Clean(raw)
    ensures |Clean(raw)| > MaxTitleLength ==>
              |r| == MaxTitleLength + |Ellipsis| && r == Clean(raw)[..MaxTitleLength] + Ellipsis
  {
    if raw == [] then CleanOfEmpty(); UnknownTitle
    else
      var t := Clamp(Clean(raw));
      if t != [] then t else UnknownTitle
  }

  // ---------------------------------------------------------------------------
  // Properties
  // ---------------------------------------------------------------------------

  /** Every cleaned title is single-spaced with no white space at either end,
      and a blank title cleans to "". */
  lemma {:induction false} CleanIsNormalised(s: string)
    ensures Normalised(Clean(s))
    ensures AllJsSpace(s) ==> Clean(s) == []
  {
    StripsKeepBlank(s);
    TidyIsNormalised(StripLeadingDash(s));
  }

  /** A blank or missing title is published as the sentinel. */
  lemma {:induction false} BlankTitleIsUnknown(raw: string)
    requires AllJsSpace(raw)
    ensures PublishTitle(raw) == UnknownTitle
  {
    CleanIsNormalised(raw);
  }

  /** An already normalised title without a dash at either end comes through
      cleaning unchanged; in particular an interior " - " survives. */
  lemma {:induction false} CleanKeepsNormalised(s: string)
    requires Normalised(s)
    requires s != [] ==> s[0] != '-' && s[|s| - 1] != '-'
    ensures Clean(s) == s
  {
    assert TrimStart(s) == s;
    assert StripLeadingDash(s) == s;
    TidyKeepsNormalised(s);
  }

  /** Surrounding white space does not matter: a normalised title padded with
      white space on both sides cleans to itself. */
  lemma {:induction false} CleanPadded(p: string, m: string, q: string)
    requires AllJsSpace(p) && AllJsSpace(q)
    requires Normalised(m) && m != [] && m[0] != '-' && m[|m| - 1] != '-'
    ensures Clean(p + m + q) == m
  {
    var s := p + m + q;
    assert StripLeadingDash(s) == s by { PaddedLeadingStripIsNoOp(p, m, q); }
    assert Tidy(s) == m by { TidyPadded(p, m, q); }
  }

  /** The scenario of an `og:title` with padding and an interior separator:
      the separator survives, trimmed or not. */
  lemma {:induction false} OgTitleScenario()
    ensures Trim("  My Video - Site  ") == "My Video - Site"
    ensures Clean("  My Video - Site  ") == "My Video - Site"
    ensures Clean("My Video - Site") == "My Video - Site"
    ensures PublishTitle("My Video - Site") == "My Video - Site"
  {
    var m := "My Video - Site";
    assert Normalised(m) by {
      forall i | 0 <= i < |m| && IsJsSpace(m[i]) ensures m[i] == ' ' {}
      forall i | 0 <= i < |m| ensures !MisplacedSpace(m, i) {}
    }
    assert "  My Video - Site  " == "  " + m + "  ";
    TrimPadded("  ", m, "  ");
    CleanPadded("  ", m, "  ");
    CleanKeepsNormalised(m);
  }

  /** Only one leading dash separator is stripped: "- - " before a title
      leaves "- " in front of it, and cleaning again removes that one too. */
  lemma {:induction false} OnlyOneLeadingDashStripped(m: string)
    requires Normalised(m) && m != [] && m[0] != '-' && m[|m| - 1] != '-'
    ensures Clean("- - " + m) == "- " + m
    ensures Clean(Clean("- - " + m)) == m
  {
    var once := "- " + m;
    assert "- - " + m == "- " + once;
    assert Normalised(once) by {
      SingleSpacedCons(' ', m);
      SingleSpacedCons('-', " " + m);
      assert once == ['-'] + (" " + m);
    }
    assert once[|once| - 1] == m[|m| - 1];
    CleanAfterDash(once);
    CleanAfterDash(m);
  }

  /** A dash separator in front of a normalised title without a trailing dash
      is removed and nothing else changes. */
  lemma {:induction false} CleanAfterDash(m: string)
    requires Normalised(m) && (m != [] ==> m[|m| - 1] != '-')
    ensures Clean("- " + m) == m
  {
    assert StripLeadingDash("- " + m) == m by { StripDashPrefix(m); }
    assert Tidy(m) == m by { TidyKeepsNormalised(m); }
  }

  /** "- " in front of a string that does not start with white space is
      exactly what the leading-dash strip removes. */
  lemma {:induction false} StripDashPrefix(x: string)
    requires x != [] ==> !IsJsSpace(x[0])
    ensures StripLeadingDash("- " + x) == x
  {
    var s := "- " + x;
    assert s[0] == '-';
    assert TrimStart(s) == s;
    assert s[1..] == [' '] + x;
    TrimStartSpacePrefix([' '], x);
  }

  /** When neither end carries a dash separator, cleaning changes only white
      space: the non-space characters come through in order. */
  lemma {:induction false} CleanKeepsContent(s: string)
    requires !(TrimStart(s) != [] && TrimStart(s)[0] == '-')
    requires !(TrimEnd(s) != [] && TrimEnd(s)[|TrimEnd(s)| - 1] == '-')
    ensures NonSpace(Clean(s)) == NonSpace(s)
  {
    assert StripLeadingDash(s) == s;
    assert StripTrailingDash(s) == s;
    NonSpaceTrim(Collapse(s));
    CollapseKeepsContent(s, false);
  }

  // ---------------------------------------------------------------------------
  // Helper lemmas
  // ---------------------------------------------------------------------------

  /** The empty title cleans to itself. */
  lemma {:induction false} CleanOfEmpty()
    ensures Clean([]) == []
  {
    assert StripLeadingDash([]) == [];
    assert StripTrailingDash([]) == [];
  }

  /** The steps after the leading-dash strip on a padded title. */
  lemma {:induction false} TidyPadded(p: string, m: string, q: string)
    requires AllJsSpace(p) && AllJsSpace(q)
    requires Normalised(m) && m != [] && m[|m| - 1] != '-'
    ensures Tidy(p + m + q) == m
  {
    var s := p + m + q;
    var pre: string := if p == [] then [] else [' '];
    var post: string := if q == [] then [] else [' '];
    var c := pre + m + post;
    assert StripTrailingDash(s) == s by { PaddedTrailingStripIsNoOp(p, m, q); }
    assert Collapse(s) == c by { CollapsePadded(p, m, q); }
    assert Trim(c) == m by { TrimPadded(pre, m, post); }
  }

  lemma {:induction false} NonSpaceAppend(a: string, b: string)
    ensures NonSpace(a + b) == NonSpace(a) + NonSpace(b)
    decreases |a|
  {
    if a == [] {
      assert a + b == b;
    } else {
      assert (a + b)[0] == a[0];
      assert (a + b)[1..] == a[1..] + b;
      NonSpaceAppend(a[1..], b);
      if !IsJsSpace(a[0]) {
        assert NonSpace(a) == [a[0]] + NonSpace(a[1..]);
        assert NonSpace(a + b) == [a[0]] + NonSpace(a[1..] + b);
      }
    }
  }

  lemma {:induction false} NonSpaceOfSpaces(a: string)
    requires AllJsSpace(a)
    ensures NonSpace(a) == []
    decreases |a|
  {
    if a != [] {
      NonSpaceOfSpaces(a[1..]);
    }
  }

  /** Putting a character in front of a single-spaced string keeps it
      single-spaced unless two spaces meet. */
  lemma {:induction false} SingleSpacedCons(c: char, x: string)
    requires SingleSpaced(x)
    requires IsJsSpace(c) ==> c == ' ' && (x != [] ==> !IsJsSpace(x[0]))
    ensures SingleSpaced([c] + x)
  {
    var s := [c] + x;
    forall i | 0 <= i < |s| ensures !MisplacedSpace(s, i) {
      if i > 0 {
        assert s[i] == x[i - 1] && !MisplacedSpace(x, i - 1);
        if i > 1 { assert s[i - 1] == x[i - 2]; }
      }
    }
  }

  /** Blank input stays blank through the dash strips, so it collapses to at
      most one space. */
  lemma {:induction false} StripsKeepBlank(s: string)
    ensures AllJsSpace(s) ==> Collapse(StripTrailingDash(StripLeadingDash(s))) == (if StripTrailingDash(StripLeadingDash(s)) == [] then [] else [' '])
  {
    var a := StripLeadingDash(s);
    var b := StripTrailingDash(a);
    if AllJsSpace(s) {
      assert AllJsSpace(a) by {
        forall i | 0 <= i < |a| ensures IsJsSpace(a[i]) {
          assert a[i] == s[|s| - |a| + i];
        }
      }
      assert AllJsSpace(b) by {
        forall i | 0 <= i < |b| ensures IsJsSpace(b[i]) {
          assert b[i] == a[i];
        }
      }
      CollapseOfSpaces(b);
    }
  }

  /** Inside a run, further white space produces nothing. */
  lemma {:induction false} CollapseRunSkipsSpaces(p: string, x: string)
    requires AllJsSpace(p)
    ensures CollapseRun(p + x, true) == CollapseRun(x, true)
    decreases |p|
  {
    if p == [] {
      assert p + x == x;
    } else {
      assert (p + x)[0] == p[0];
      assert (p + x)[1..] == p[1..] + x;
      CollapseRunSkipsSpaces(p[1..], x);
    }
  }

  /** Collapsing white space alone leaves at most one space. */
  lemma {:induction false} CollapseOfSpaces(s: string)
    requires AllJsSpace(s)
    ensures Collapse(s) == (if s == [] then [] else [' '])
  {
    if s != [] {
      CollapseRunSkipsSpaces(s[1..], []);
      assert s[1..] + [] == s[1..];
    }
  }

  /** Any slice of a single-spaced string is single-spaced. */
  lemma {:induction false} SingleSpacedSlice(s: string, a: nat, b: nat)
    requires SingleSpaced(s) && a <= b <= |s|
    ensures SingleSpaced(s[a..b])
  {
    var t := s[a..b];
    forall i | 0 <= i < |t| ensures !MisplacedSpace(t, i) {
      assert t[i] == s[a + i] && !MisplacedSpace(s, a + i);
      if i > 0 { assert t[i - 1] == s[a + i - 1]; }
    }
  }

  /** White space before a non-space start is exactly what `trimStart` drops. */
  lemma {:induction false} TrimStartSpacePrefix(p: string, x: string)
    requires AllJsSpace(p)
    requires x != [] ==> !IsJsSpace(x[0])
    ensures TrimStart(p + x) == x
    decreases |p|
  {
    if p != [] {
      assert (p + x)[0] == p[0];
      assert (p + x)[1..] == p[1..] + x;
      TrimStartSpacePrefix(p[1..], x);
    } else {
      assert p + x == x;
    }
  }

  /** White space after a non-space end is exactly what `trimEnd` drops. */
  lemma {:induction false} TrimEndSpaceSuffix(x: string, q: string)
    requires AllJsSpace(q)
    requires x != [] ==> !IsJsSpace(x[|x| - 1])
    ensures TrimEnd(x + q) == x
    decreases |q|
  {
    if q != [] {
      var s := x + q;
      assert s[|s| - 1] == q[|q| - 1];
      assert s[..|s| - 1] == x + q[..|q| - 1];
      TrimEndSpaceSuffix(x, q[..|q| - 1]);
    } else {
      assert x + q == x;
    }
  }

  /** `Collapse` changes only white space. */
  lemma {:induction false} CollapseKeepsContent(s: string, inRun: bool)
    ensures NonSpace(CollapseRun(s, inRun)) == NonSpace(s)
    decreases |s|
  {
    if s != [] {
      CollapseKeepsContent(s[1..], IsJsSpace(s[0]));
      var rest := CollapseRun(s[1..], IsJsSpace(s[0]));
      if IsJsSpace(s[0]) {
        assert NonSpace(s) == NonSpace(s[1..]);
        assert ([' '] + rest)[0] == ' ' && ([' '] + rest)[1..] == rest;
      } else {
        assert NonSpace(s) == [s[0]] + NonSpace(s[1..]);
        assert ([s[0]] + rest)[0] == s[0] && ([s[0]] + rest)[1..] == rest;
      }
    }
  }

  /** `trim` removes only white space. */
  lemma {:induction false} NonSpaceTrim(c: string)
    ensures NonSpace(Trim(c)) == NonSpace(c)
  {
    NonSpaceTrimStart(c);
    NonSpaceTrimEnd(TrimStart(c));
  }

  lemma {:induction false} NonSpaceTrimStart(s: string)
    ensures NonSpace(TrimStart(s)) == NonSpace(s)
    decreases |s|
  {
    if s != [] && IsJsSpace(s[0]) {
      NonSpaceTrimStart(s[1..]);
    }
  }

  lemma {:induction false} NonSpaceTrimEnd(s: string)
    ensures NonSpace(TrimEnd(s)) == NonSpace(s)
    decreases |s|
  {
    if s != [] && IsJsSpace(s[|s| - 1]) {
      var init := s[..|s| - 1];
      NonSpaceTrimEnd(init);
      assert s == init + [s[|s| - 1]];
      NonSpaceAppend(init, [s[|s| - 1]]);
      assert NonSpace([s[|s| - 1]]) == [];
    }
  }

  /** A single-spaced part that ends in a non-space character passes through
      `Collapse` unchanged, whatever the run state before it. */
  lemma {:induction false} CollapseSingleSpaced(m: string, q: string, inRun: bool)
    requires SingleSpaced(m) && m != [] && !IsJsSpace(m[0]) && !IsJsSpace(m[|m| - 1])
    ensures CollapseRun(m + q, inRun) == m + CollapseRun(q, false)
    decreases |m|
  {
    if |m| == 1 {
      CollapseOneChar(m, q, inRun);
    } else if IsJsSpace(m[1]) {
      assert !MisplacedSpace(m, 1);
      NormalisedTail(m, 2);
      CollapseSingleSpaced(m[2..], q, true);
      CollapseThroughSpace(m, q, inRun);
    } else {
      NormalisedTail(m, 1);
      CollapseSingleSpaced(m[1..], q, false);
      CollapseThroughChar(m, q, inRun);
    }
  }

  /** Past a non-space start, a single-spaced string with a non-space end
      stays so from `k` on, when `k` is the start or follows a space. */
  lemma {:induction false} NormalisedTail(m: string, k: nat)
    requires SingleSpaced(m) && m != [] && !IsJsSpace(m[0]) && !IsJsSpace(m[|m| - 1])
    requires (k == 1 && |m| > 1 && !IsJsSpace(m[1])) || (k == 2 && |m| > 1 && IsJsSpace(m[1]))
    ensures k < |m| && SingleSpaced(m[k..]) && !IsJsSpace(m[k..][0]) && !IsJsSpace(m[k..][|m[k..]| - 1])
  {
    if k == 2 {
      assert !MisplacedSpace(m, 2);
    }
    SingleSpacedSlice(m, k, |m|);
    assert m[k..|m|] == m[k..];
  }

  /** A one-character title passes through. */
  lemma {:induction false} CollapseOneChar(m: string, q: string, inRun: bool)
    requires |m| == 1 && !IsJsSpace(m[0])
    ensures CollapseRun(m + q, inRun) == m + CollapseRun(q, false)
  {
    assert m + q == [m[0]] + q && m == [m[0]];
    CollapseNonSpaceStep(m[0], q, inRun);
  }

  /** A character and a single space in front of a part that passes through. */
  lemma {:induction false} CollapseThroughSpace(m: string, q: string, inRun: bool)
    requires |m| > 2 && !IsJsSpace(m[0]) && IsJsSpace(m[1]) && m[1] == ' '
    requires CollapseRun(m[2..] + q, true) == m[2..] + CollapseRun(q, false)
    ensures CollapseRun(m + q, inRun) == m + CollapseRun(q, false)
  {
    var c := m[0];
    var t := m[2..];
    var tail := CollapseRun(q, false);
    assert m == [c] + ([' '] + t);
    assert m + q == [c] + ([' '] + (t + q));
    CollapseNonSpaceStep(c, [' '] + (t + q), inRun);
    CollapseSpaceStep(' ', t + q);
    assert [c] + ([' '] + (t + tail)) == m + tail;
  }

  /** A character in front of a part that passes through. */
  lemma {:induction false} CollapseThroughChar(m: string, q: string, inRun: bool)
    requires |m| > 1 && !IsJsSpace(m[0])
    requires CollapseRun(m[1..] + q, false) == m[1..] + CollapseRun(q, false)
    ensures CollapseRun(m + q, inRun) == m + CollapseRun(q, false)
  {
    var c := m[0];
    var x := m[1..];
    var tail := CollapseRun(q, false);
    assert m + q == [c] + (x + q);
    CollapseNonSpaceStep(c, x + q, inRun);
    assert m == [c] + x;
    assert [c] + (x + tail) == ([c] + x) + tail;
  }

  /** A non-space character is copied and ends any run. */
  lemma {:induction false} CollapseNonSpaceStep(c: char, x: string, inRun: bool)
    requires !IsJsSpace(c)
    ensures CollapseRun([c] + x, inRun) == [c] + CollapseRun(x, false)
  {
    assert ([c] + x)[1..] == x;
  }

  /** A white-space character outside a run becomes one space and starts a run. */
  lemma {:induction false} CollapseSpaceStep(c: char, x: string)
    requires IsJsSpace(c)
    ensures CollapseRun([c] + x, false) == [' '] + CollapseRun(x, true)
  {
    assert ([c] + x)[1..] == x;
  }

  /** `Tidy` always yields a normalised string. */
  lemma {:induction false} TidyIsNormalised(s: string)
    ensures Normalised(Tidy(s))
  {
    var c := Collapse(StripTrailingDash(s));
    assert Tidy(s) == Trim(c);
    TrimIsNormalised(c);
  }

  /** Trimming a single-spaced string normalises it. */
  lemma {:induction false} TrimIsNormalised(c: string)
    requires SingleSpaced(c)
    ensures Normalised(Trim(c))
  {
    TrimKeepsSingleSpaced(c);
  }

  /** Trimming a single-spaced string keeps it single-spaced. */
  lemma {:induction false} TrimKeepsSingleSpaced(c: string)
    requires SingleSpaced(c)
    ensures SingleSpaced(Trim(c))
  {
    var k := TrimOffset(c);
    var n := |Trim(c)|;
    TrimKeepsMiddle(c);
    SingleSpacedSlice(c, k, k + n);
  }

  /** A normalised string without a trailing dash survives `Tidy`. */
  lemma {:induction false} TidyKeepsNormalised(s: string)
    requires Normalised(s)
    requires s != [] ==> s[|s| - 1] != '-'
    ensures Tidy(s) == s
  {
    assert TrimEnd(s) == s;
    assert StripTrailingDash(s) == s;
    if s != [] {
      CollapseSingleSpaced(s, [], false);
      assert s + [] == s;
    }
    TrimNoOp(s);
  }

  /** Padding around a title without dash ends leaves the leading-dash strip idle. */
  lemma {:induction false} PaddedLeadingStripIsNoOp(p: string, m: string, q: string)
    requires AllJsSpace(p)
    requires m != [] && !IsJsSpace(m[0]) && m[0] != '-'
    ensures StripLeadingDash(p + m + q) == p + m + q
  {
    assert p + m + q == p + (m + q);
    TrimStartSpacePrefix(p, m + q);
  }

  /** Padding around a title without dash ends leaves the trailing-dash strip idle. */
  lemma {:induction false} PaddedTrailingStripIsNoOp(p: string, m: string, q: string)
    requires AllJsSpace(q)
    requires m != [] && !IsJsSpace(m[|m| - 1]) && m[|m| - 1] != '-'
    ensures StripTrailingDash(p + m + q) == p + m + q
  {
    var pm := p + m;
    assert pm[|pm| - 1] == m[|m| - 1];
    TrimEndSpaceSuffix(pm, q);
  }

  /** Collapsing a padded single-spaced title keeps one space per padding side. */
  lemma {:induction false} CollapsePadded(p: string, m: string, q: string)
    requires AllJsSpace(p) && AllJsSpace(q)
    requires Normalised(m) && m != []
    ensures Collapse(p + m + q) == (if p == [] then [] else [' ']) + m + (if q == [] then [] else [' '])
  {
    CollapseOfSpaces(q);
    if p == [] {
      assert p + m + q == m + q;
      CollapseBare(m, q);
    } else {
      CollapseAfterSpaces(p, m, q);
    }
  }

  /** A normalised title collapses to itself, followed by whatever comes after it. */
  lemma {:induction false} CollapseBare(m: string, q: string)
    requires Normalised(m) && m != []
    ensures Collapse(m + q) == m + Collapse(q)
  {
    CollapseSingleSpaced(m, q, false);
  }

  /** White space before a normalised title collapses to one space. */
  lemma {:induction false} CollapseAfterSpaces(p: string, m: string, q: string)
    requires AllJsSpace(p) && p != []
    requires Normalised(m) && m != []
    ensures Collapse(p + m + q) == [' '] + m + Collapse(q)
  {
    var s := p + m + q;
    assert s[0] == p[0];
    assert s[1..] == p[1..] + (m + q);
    CollapseRunSkipsSpaces(p[1..], m + q);
    CollapseSingleSpaced(m, q, true);
    assert [' '] + (m + Collapse(q)) == [' '] + m + Collapse(q);
  }

  /** Trimming white space padding recovers a title with non-space ends. */
  lemma {:induction false} TrimPadded(a: string, m: string, b: string)
    requires AllJsSpace(a) && AllJsSpace(b)
    requires m != [] && !IsJsSpace(m[0]) && !IsJsSpace(m[|m| - 1])
    ensures Trim(a + m + b) == m
  {
    var s := a + m + b;
    assert s == a + (m + b);
    assert (m + b)[0] == m[0];
    TrimStartSpacePrefix(a, m + b);
    TrimEndSpaceSuffix(m, b);
    TrimOfTrimmedParts(s, m + b, m);
  }
}

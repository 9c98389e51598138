/**
 * String primitives of the two runtimes the system is written for: JavaScript's
 * `trim`, `includes`, `startsWith`, `replace(string, string)` and `split`, and Rust's
 * `str::trim`. Strings are sequences of characters; a character stands for one
 * UTF-16 code unit on the JavaScript side.
 */
module Text {
  import opened Wrappers

  // ---------------------------------------------------------------------------
  // Whitespace classes
  // ---------------------------------------------------------------------------

  /** The ECMAScript WhiteSpace and LineTerminator code points: what the regular
      expression class `\s` matches and what `String.prototype.trim` removes. */
  predicate IsJsSpace(c: char) {
    || ('\t' <= c <= '\r') || c == ' ' || c == '\U{00A0}' || c == '\U{1680}'
    || ('\U{2000}' <= c <= '\U{200A}')
    || c == '\U{2028}' || c == '\U{2029}' || c == '\U{202F}' || c == '\U{205F}'
    || c == '\U{3000}' || c == '\U{FEFF}'
  }

  /** Rust's `char::is_whitespace` (the Unicode White_Space property), used by `str::trim`.
      It differs from `IsJsSpace` on U+0085 (white space only here) and U+FEFF. */
  predicate IsRustWhitespace(c: char) {
    || ('\t' <= c <= '\r') || c == ' ' || c == '\U{0085}' || c == '\U{00A0}'
    || c == '\U{1680}' || ('\U{2000}' <= c <= '\U{200A}')
    || c == '\U{2028}' || c == '\U{2029}' || c == '\U{202F}' || c == '\U{205F}'
    || c == '\U{3000}'
  }

  /** Every character of `s` is JavaScript white space (vacuously true of ""). */
  predicate AllJsSpace(s: string) {
    forall i :: 0 <= i < |s| ==> IsJsSpace(s[i])
  }

  /** Rust's `s.trim().is_empty()`. */
  predicate IsRustBlank(s: string) {
    forall i :: 0 <= i < |s| ==> IsRustWhitespace(s[i])
  }

  // ---------------------------------------------------------------------------
  // Trimming
  // ---------------------------------------------------------------------------

  /** `s.trimStart()`: drops the longest all-space prefix. */
  function TrimStart(s: string): (r: string)
    ensures |r| <= |s| && r == s[|s| - |r|..]
    ensures r != [] ==> !IsJsSpace(r[0])
  {
    if s != [] && IsJsSpace(s[0]) then TrimStart(s[1..]) else s
  }

  /** What `trimStart` drops is white space. */
  lemma {:induction false} TrimStartDropsSpace(s: string)
    ensures forall i :: 0 <= i < |s| - |TrimStart(s)| ==> IsJsSpace(s[i])
    decreases |s|
  {
    if s != [] && IsJsSpace(s[0]) {
      TrimStartDropsSpace(s[1..]);
      forall i | 0 < i < |s| - |TrimStart(s)| ensures IsJsSpace(s[i]) {
        assert s[i] == s[1..][i - 1];
      }
    }
  }

  /** `s.trimEnd()`: drops the longest all-space suffix. */
  function TrimEnd(s: string): (r: string)
    ensures |r| <= |s| && r == s[..|r|]
    ensures r != [] ==> !IsJsSpace(r[|r| - 1])
  {
    if s != [] && IsJsSpace(s[|s| - 1]) then TrimEnd(s[..|s| - 1]) else s
  }

  /** What `trimEnd` drops is white space. */
  lemma {:induction false} TrimEndDropsSpace(s: string)
    ensures forall i :: |TrimEnd(s)| <= i < |s| ==> IsJsSpace(s[i])
    decreases |s|
  {
    if s != [] && IsJsSpace(s[|s| - 1]) {
      TrimEndDropsSpace(s[..|s| - 1]);
      forall i | |TrimEnd(s)| <= i < |s| - 1 ensures IsJsSpace(s[i]) {
        assert s[i] == s[..|s| - 1][i];
      }
    }
  }

  /** `s.trim()`. */
  function Trim(s: string): (r: string)
    ensures |r| <= |s|
    ensures r == [] <==> AllJsSpace(s)
    ensures r != [] ==> !IsJsSpace(r[0]) && !IsJsSpace(r[|r| - 1])
  {
    var t := TrimStart(s);
    TrimStartDropsSpace(s);
    TrimEndDropsSpace(t);
    assert AllJsSpace(s) ==> t == [] by {
      if t != [] { assert t[0] == s[|s| - |t|]; }
    }
    TrimEnd(t)
  }

  /** How many characters `trim` drops at the front. */
  function TrimOffset(s: string): nat {
    |s| - |TrimStart(s)|
  }

  /** Trimming is a slice of the input: the kept part keeps its position and
      only white space lies outside it. */
  lemma {:induction false} TrimIsSlice(s: string)
    ensures TrimOffset(s) + |Trim(s)| <= |s|
    ensures Trim(s) == s[TrimOffset(s)..TrimOffset(s) + |Trim(s)|]
    ensures AllJsSpace(s[..TrimOffset(s)]) && AllJsSpace(s[TrimOffset(s) + |Trim(s)|..])
  {
    TrimKeepsMiddle(s);
    TrimDropsSpace(s);
  }

  /** The kept part of `trim` is the middle slice. */
  lemma {:induction false} TrimKeepsMiddle(s: string)
    ensures TrimOffset(s) + |Trim(s)| <= |s|
    ensures Trim(s) == s[TrimOffset(s)..TrimOffset(s) + |Trim(s)|]
  {
    var t := TrimStart(s);
    var k := TrimOffset(s);
    var r := TrimEnd(t);
    assert Trim(s) == r;
    MiddleOfSuffix(s, k, t, r);
  }

  /** A prefix of the suffix starting at `k` is the slice from `k`. */
  lemma {:induction false} MiddleOfSuffix(s: string, k: nat, t: string, r: string)
    requires k <= |s| && t == s[k..] && |r| <= |t| && r == t[..|r|]
    ensures k + |r| <= |s| && r == s[k..k + |r|]
  {
  }

  /** Only white space lies outside the kept part. */
  lemma {:induction false} TrimDropsSpace(s: string)
    ensures TrimOffset(s) + |Trim(s)| <= |s|
    ensures AllJsSpace(s[..TrimOffset(s)]) && AllJsSpace(s[TrimOffset(s) + |Trim(s)|..])
  {
    TrimDropsLeadingSpace(s);
    TrimDropsTrailingSpace(s);
  }

  /** What `Trim` drops in front is white space. */
  lemma {:induction false} TrimDropsLeadingSpace(s: string)
    ensures AllJsSpace(s[..TrimOffset(s)])
  {
    TrimStartDropsSpace(s);
    AllJsSpaceSlice(s, 0, TrimOffset(s));
    assert s[..TrimOffset(s)] == s[0..TrimOffset(s)];
  }

  /** What `Trim` drops at the end is white space. */
  lemma {:induction false} TrimDropsTrailingSpace(s: string)
    ensures TrimOffset(s) + |Trim(s)| <= |s|
    ensures AllJsSpace(s[TrimOffset(s) + |Trim(s)|..])
  {
    var t := TrimStart(s);
    var r := TrimEnd(t);
    assert Trim(s) == r;
    TrimEndDropsSpace(t);
    SpaceAfterKeptPart(s, t, |r|);
  }

  /** White space after position `n` of a suffix `t` of `s` is white space
      after the same point of `s`. */
  lemma {:induction false} SpaceAfterKeptPart(s: string, t: string, n: nat)
    requires |t| <= |s| && t == s[|s| - |t|..] && n <= |t|
    requires forall i :: n <= i < |t| ==> IsJsSpace(t[i])
    ensures AllJsSpace(s[|s| - |t| + n..])
  {
    var k := |s| - |t|;
    forall i | k + n <= i < |s| ensures IsJsSpace(s[i]) {
      assert s[i] == t[i - k];
    }
    AllJsSpaceSlice(s, k + n, |s|);
    assert s[k + n..] == s[k + n..|s|];
  }

  /** A slice whose every position is white space is all white space. */
  lemma {:induction false} AllJsSpaceSlice(s: string, a: nat, b: nat)
    requires a <= b <= |s|
    requires forall i :: a <= i < b ==> IsJsSpace(s[i])
    ensures AllJsSpace(s[a..b])
  {
    forall i | 0 <= i < b - a ensures IsJsSpace(s[a..b][i]) {
      assert s[a..b][i] == s[a + i];
    }
  }

  /** Trimming twice is trimming once. */
  lemma {:induction false} TrimIdempotent(s: string)
    ensures Trim(Trim(s)) == Trim(s)
  {
    var r := Trim(s);
    assert r != [] ==> !IsJsSpace(r[0]) && !IsJsSpace(r[|r| - 1]);
    TrimNoOp(r);
  }

  /** A string with no space at either end is its own trim. */
  lemma {:induction false} TrimNoOp(s: string)
    requires s != [] ==> !IsJsSpace(s[0]) && !IsJsSpace(s[|s| - 1])
    ensures Trim(s) == s
  {
    assert TrimStart(s) == s;
    assert TrimEnd(s) == s;
    TrimOfTrimmedParts(s, s, s);
  }

  /** `Trim` is `TrimEnd` after `TrimStart`. */
  lemma {:induction false} TrimOfTrimmedParts(s: string, t: string, r: string)
    requires TrimStart(s) == t && TrimEnd(t) == r
    ensures Trim(s) == r
  {
  }

  // ---------------------------------------------------------------------------
  // Prefixes, suffixes and substring search
  // ---------------------------------------------------------------------------

  /** `s.startsWith(p)`. */
  predicate StartsWith(s: string, p: string) {
    |p| <= |s| && s[..|p|] == p
  }

  /** `s.endsWith(p)`. */
  predicate EndsWith(s: string, p: string) {
    |p| <= |s| && s[|s| - |p|..] == p
  }

  /** `sub` occurs in `s` starting at index `i`. */
  predicate OccursAt(s: string, sub: string, i: int) {
    0 <= i && i + |sub| <= |s| && s[i..i + |sub|] == sub
  }

  /** The first index at or after `from` where `sub` occurs. */
  function IndexFrom(s: string, sub: string, from: nat): (r: Option<nat>)
    requires from <= |s| + 1
    ensures r.Some? ==> from <= r.value && OccursAt(s, sub, r.value)
    ensures r.Some? ==> forall j :: from <= j < r.value ==> !OccursAt(s, sub, j)
    ensures r.None? ==> forall j :: from <= j ==> !OccursAt(s, sub, j)
    decreases |s| + 1 - from
  {
    if from + |sub| > |s| then None
    else if s[from..from + |sub|] == sub then Some(from)
    else IndexFrom(s, sub, from + 1)
  }

  /** `s.indexOf(sub)`, with `None` for -1. */
  function IndexOf(s: string, sub: string): (r: Option<nat>)
    ensures r.Some? ==> OccursAt(s, sub, r.value)
    ensures r.Some? ==> forall j :: 0 <= j < r.value ==> !OccursAt(s, sub, j)
    ensures r.None? ==> forall j :: !OccursAt(s, sub, j)
  {
    IndexFrom(s, sub, 0)
  }

  /** `s.includes(sub)`. */
  predicate Contains(s: string, sub: string) {
    IndexOf(s, sub).Some?
  }

  /** A string contains any string that occurs in it at some index. */
  lemma {:induction false} ContainsAt(s: string, sub: string, i: int)
    requires OccursAt(s, sub, i)
    ensures Contains(s, sub)
  {
  }

  /** A string contains each of its prefixes. */
  lemma {:induction false} ContainsPrefix(s: string, p: string)
    requires StartsWith(s, p)
    ensures Contains(s, p)
  {
    assert OccursAt(s, p, 0);
  }

  /** `s.replace(pat, rep)` with a string pattern: only the first occurrence is
      replaced; `rep` is taken literally (the callers pass "" only). */
  function ReplaceFirst(s: string, pat: string, rep: string): (r: string)
    ensures (forall j :: !OccursAt(s, pat, j)) ==> r == s
  {
    match IndexOf(s, pat)
    case None => s
    case Some(i) => s[..i] + rep + s[i + |pat|..]
  }

  /** When `pat` first occurs at `i`, exactly that occurrence is replaced and
      everything before and after it is kept. */
  lemma {:induction false} ReplaceFirstAt(s: string, pat: string, rep: string, i: nat)
    requires OccursAt(s, pat, i)
    requires forall j :: 0 <= j < i ==> !OccursAt(s, pat, j)
    ensures ReplaceFirst(s, pat, rep) == s[..i] + rep + s[i + |pat|..]
  {
    var f := IndexOf(s, pat);
    assert f.Some?;
    assert !(f.value < i);
  }

  // ---------------------------------------------------------------------------
  // Splitting
  // ---------------------------------------------------------------------------

  /** `s.split(seps)` for a set of single-character separators: the maximal
      separator-free pieces, including empty ones, so there is always at least one. */
  function Split(s: string, seps: set<char>): (r: seq<string>)
    ensures |r| >= 1
  {
    if s == [] then [[]]
    else
      var rest := Split(s[1..], seps);
      if s[0] in seps then [[]] + rest else [[s[0]] + rest[0]] + rest[1..]
  }

  /** The text after the last separator: what `s.split(seps).pop()` yields. */
  function LastSegment(s: string, seps: set<char>): (r: string)
    ensures |r| <= |s| && r == s[|s| - |r|..]
    ensures forall j :: 0 <= j < |r| ==> r[j] !in seps
    ensures |r| < |s| ==> s[|s| - |r| - 1] in seps
  {
    if s == [] || s[|s| - 1] in seps then []
    else LastSegment(s[..|s| - 1], seps) + [s[|s| - 1]]
  }

  /** The last piece of a split is the text after the last separator. */
  lemma {:induction false} SplitLastIsLastSegment(s: string, seps: set<char>)
    ensures Split(s, seps)[|Split(s, seps)| - 1] == LastSegment(s, seps)
  {
    SplitLastByLength(s, seps, |s|);
  }

  /** The induction behind `SplitLastIsLastSegment`, on the length `n`. */
  lemma {:induction false} SplitLastByLength(s: string, seps: set<char>, n: nat)
    requires |s| == n
    ensures Split(s, seps)[|Split(s, seps)| - 1] == LastSegment(s, seps)
    decreases n
  {
    if n == 0 {
      SplitLastOfEmpty(s, seps);
    } else {
      SplitLastByLength(s[1..], seps, n - 1);
      SplitLastStep(s, seps);
    }
  }

  /** The empty string splits into one empty piece. */
  lemma {:induction false} SplitLastOfEmpty(s: string, seps: set<char>)
    requires s == []
    ensures Split(s, seps)[|Split(s, seps)| - 1] == LastSegment(s, seps)
  {
    assert Split(s, seps)[0] == [];
  }

  /** The inductive step: one more character in front keeps the last piece
      equal to the last segment. */
  lemma {:induction false} SplitLastStep(s: string, seps: set<char>)
    requires s != []
    requires Split(s[1..], seps)[|Split(s[1..], seps)| - 1] == LastSegment(s[1..], seps)
    ensures Split(s, seps)[|Split(s, seps)| - 1] == LastSegment(s, seps)
  {
    if s[0] in seps {
      SplitLastAfterSeparator(s, seps);
    } else if |Split(s[1..], seps)| == 1 {
      SplitSingleHead(s, seps);
    } else {
      SplitLastAfterPiece(s, seps);
    }
  }

  /** A leading separator opens a new piece and leaves the last one alone. */
  lemma {:induction false} SplitLastAfterSeparator(s: string, seps: set<char>)
    requires s != [] && s[0] in seps
    requires Split(s[1..], seps)[|Split(s[1..], seps)| - 1] == LastSegment(s[1..], seps)
    ensures Split(s, seps)[|Split(s, seps)| - 1] == LastSegment(s, seps)
  {
    SplitLastAfterSeparatorPiece(s, seps);
    LastSegmentDropFirst(s, seps);
  }

  /** After a leading separator the last piece is that of the rest. */
  lemma {:induction false} SplitLastAfterSeparatorPiece(s: string, seps: set<char>)
    requires s != [] && s[0] in seps
    ensures Split(s, seps)[|Split(s, seps)| - 1] == Split(s[1..], seps)[|Split(s[1..], seps)| - 1]
  {
    var rest := Split(s[1..], seps);
    assert |Split(s, seps)| == 1 + |rest| && Split(s, seps)[|rest|] == ([[]] + rest)[|rest|];
  }

  /** A leading character joins the first of several pieces, which is not
      the last one. */
  lemma {:induction false} SplitLastAfterPiece(s: string, seps: set<char>)
    requires s != [] && s[0] !in seps && |Split(s[1..], seps)| > 1
    requires Split(s[1..], seps)[|Split(s[1..], seps)| - 1] == LastSegment(s[1..], seps)
    ensures Split(s, seps)[|Split(s, seps)| - 1] == LastSegment(s, seps)
  {
    var t := s[1..];
    SplitLastAfterPiecePiece(s, seps);
    SplitSeveralHasSeparator(t, seps);
    var j :| 0 <= j < |t| && t[j] in seps;
    assert s[j + 1] in seps;
    LastSegmentDropFirst(s, seps);
  }

  /** A leading character joined to the first of several pieces leaves the
      last piece that of the rest. */
  lemma {:induction false} SplitLastAfterPiecePiece(s: string, seps: set<char>)
    requires s != [] && s[0] !in seps && |Split(s[1..], seps)| > 1
    ensures Split(s, seps)[|Split(s, seps)| - 1] == Split(s[1..], seps)[|Split(s[1..], seps)| - 1]
  {
    var rest := Split(s[1..], seps);
    assert |Split(s, seps)| == |rest| && Split(s, seps)[|rest| - 1] == ([[s[0]] + rest[0]] + rest[1..])[|rest| - 1];
  }

  /** A split into several pieces means a separator occurs. */
  lemma {:induction false} SplitSeveralHasSeparator(t: string, seps: set<char>)
    requires |Split(t, seps)| > 1
    ensures exists j :: 0 <= j < |t| && t[j] in seps
  {
    if forall j :: 0 <= j < |t| ==> t[j] !in seps {
      SplitWithoutSeparatorIsSingle(t, seps);
    }
  }

  /** A non-separator followed by a separator-free rest: one piece, which is
      also the last segment. */
  lemma {:induction false} SplitSingleHead(s: string, seps: set<char>)
    requires s != [] && s[0] !in seps && |Split(s[1..], seps)| == 1
    ensures Split(s, seps)[|Split(s, seps)| - 1] == LastSegment(s, seps)
  {
    var t := s[1..];
    SplitSingleMeansNoSeparator(t, seps);
    SplitConsSingle(s, seps);
    assert [s[0]] + t == s;
    NoSeparatorCons(s, seps);
    LastSegmentWithoutSeparator(s, seps);
  }

  /** A non-separator in front of a single piece joins it. */
  lemma {:induction false} SplitConsSingle(s: string, seps: set<char>)
    requires s != [] && s[0] !in seps && |Split(s[1..], seps)| == 1
    ensures |Split(s, seps)| == 1 && Split(s, seps)[0] == [s[0]] + Split(s[1..], seps)[0]
  {
  }

  /** A non-separator in front of a separator-free string keeps it separator-free. */
  lemma {:induction false} NoSeparatorCons(s: string, seps: set<char>)
    requires s != [] && s[0] !in seps
    requires forall j :: 0 <= j < |s[1..]| ==> s[1..][j] !in seps
    ensures forall j :: 0 <= j < |s| ==> s[j] !in seps
  {
    forall j | 0 < j < |s| ensures s[j] !in seps {
      assert s[j] == s[1..][j - 1];
    }
  }

  /** When a split of `s` has a single piece, `s` has no separator at all. */
  lemma {:induction false} SplitSingleMeansNoSeparator(s: string, seps: set<char>)
    requires |Split(s, seps)| == 1
    ensures forall j :: 0 <= j < |s| ==> s[j] !in seps
    ensures Split(s, seps)[0] == s
    decreases |s|
  {
    if s != [] {
      assert s[0] !in seps;
      SplitSingleMeansNoSeparator(s[1..], seps);
      assert s == [s[0]] + s[1..];
    }
  }

  /** A string without separators splits into one piece. */
  lemma {:induction false} SplitWithoutSeparatorIsSingle(s: string, seps: set<char>)
    requires forall j :: 0 <= j < |s| ==> s[j] !in seps
    ensures |Split(s, seps)| == 1
    decreases |s|
  {
    if s != [] {
      SplitWithoutSeparatorIsSingle(s[1..], seps);
    }
  }

  /** Without separators the last segment is the whole string. */
  lemma {:induction false} LastSegmentWithoutSeparator(s: string, seps: set<char>)
    requires forall j :: 0 <= j < |s| ==> s[j] !in seps
    ensures LastSegment(s, seps) == s
  {
  }

  /** Dropping the first character does not change the last segment when that
      character is a separator or a separator follows it. */
  lemma {:induction false} LastSegmentDropFirst(s: string, seps: set<char>)
    requires s != []
    requires s[0] in seps || exists j :: 1 <= j < |s| && s[j] in seps
    ensures LastSegment(s, seps) == LastSegment(s[1..], seps)
  {
    var r := LastSegment(s, seps);
    var r' := LastSegment(s[1..], seps);
    if s[0] !in seps {
      var j :| 1 <= j < |s| && s[j] in seps;
      assert |r| < |s| - j;
    }
    assert |r| < |s|;
    assert |r| == |r'|;
  }

  // ---------------------------------------------------------------------------
  // Case mapping
  // ---------------------------------------------------------------------------

  /** `s.toLowerCase()` restricted to ASCII letters: the URL parser hands over
      host names in ASCII (non-ASCII labels arrive in punycode), so the
      letters that matter are A-Z. */
  function ToLowerAscii(s: string): (r: string)
    ensures |r| == |s|
    ensures forall i :: 0 <= i < |s| ==> r[i] == LowerAscii(s[i])
  {
    if s == [] then [] else [LowerAscii(s[0])] + ToLowerAscii(s[1..])
  }

  /** One character through `ToLowerAscii`. */
  function LowerAscii(c: char): char {
    if 'A' <= c <= 'Z' then (c as int - 'A' as int + 'a' as int) as char else c
  }
}

/**
 * `parseChangeType` of the changelog parser: the conventional-commit prefix of a bullet's text
 * (`feat:`, `fix(scope):`, `BREAKING CHANGE:` ...) decides the type of the change entry, and the
 * prefix is cut from the text that is kept.
 */
module ChangeTypes {
  import opened Wrappers
  import opened Text

  datatype ChangeType = Feat | Fix | Breaking | Docs | Chore | Other

  /** One bullet of a release: its type and its text with the prefix removed. */
  datatype ChangeEntry = ChangeEntry(kind: ChangeType, description: string)

  /** The prefix word of a change type. */
  function KindName(k: ChangeType): string {
    match k
    case Feat => "feat"
    case Fix => "fix"
    case Breaking => "breaking"
    case Docs => "docs"
    case Chore => "chore"
    case Other => "other"
  }

  /** The four types recognised by a `name:` or `name(scope):` prefix. */
  predicate IsConventional(k: ChangeType) {
    k == Feat || k == Fix || k == Docs || k == Chore
  }

  /** `t.startsWith(name + ":") || t.startsWith(name + "(")`: the test that selects a type. */
  predicate HasKindPrefix(t: string, name: string) {
    StartsWith(t, name + ":") || StartsWith(t, name + "(")
  }

  predicate NotCloseParen(c: char) {
    c != ')'
  }

  /** `e` ends the longest whitespace run starting at `m` (what a greedy `\s*` consumes). */
  predicate GreedySpacesTo(t: string, m: int, e: int) {
    SpacesBetween(t, m, e) && (e == |t| || !IsSpace(t[e]))
  }

  // ---------------------------------------------------------------------------------------
  // `^name(\([^)]+\))?:\s*`
  // ---------------------------------------------------------------------------------------

  /**
   * `t[..m]` is `name:` or `name(scope):` with a non-empty scope free of `)`: the text the
   * head `^name(\([^)]+\))?:` of the replace pattern accepts. At most one `m` qualifies, since
   * the scope must stop at the first `)`.
   */
  predicate KindHead(t: string, name: string, m: int) {
    LitAt(t, 0, name) && |name| < m <= |t| && t[m - 1] == ':' &&
    (m == |name| + 1 ||
     (m >= |name| + 4 && t[|name|] == '(' && t[m - 2] == ')' &&
      forall j :: |name| + 1 <= j < m - 2 ==> t[j] != ')'))
  }

  /** End of the match of `^name(\([^)]+\))?:\s*` in `t`, if the pattern matches. */
  function KindPrefixEnd(t: string, name: string): (r: Option<nat>)
    ensures r.Some? ==> r.value <= |t|
  {
    var k := |name|;
    if !LitAt(t, 0, name) || k == |t| then None
    else if t[k] == ':' then Some(SpanFrom(IsSpace, t, k + 1))
    else if t[k] == '(' then
      var c := SpanFrom(NotCloseParen, t, k + 1);
      if k + 1 < c && c + 1 < |t| && t[c + 1] == ':' then Some(SpanFrom(IsSpace, t, c + 2)) else None
    else None
  }

  /** A match found is a head followed by its greedy whitespace. */
  lemma KindPrefixEndSound(t: string, name: string)
    ensures KindPrefixEnd(t, name).Some? ==>
      exists m :: KindHead(t, name, m) && GreedySpacesTo(t, m, KindPrefixEnd(t, name).value)
  {
    var k := |name|;
    if KindPrefixEnd(t, name).Some? {
      if t[k] == ':' {
        SpanFromSpec(IsSpace, t, k + 1);
        assert KindHead(t, name, k + 1);
      } else {
        var c := SpanFrom(NotCloseParen, t, k + 1);
        SpanFromSpec(NotCloseParen, t, k + 1);
        SpanFromSpec(IsSpace, t, c + 2);
        assert KindHead(t, name, c + 2);
      }
    }
  }

  /** Every head followed by its greedy whitespace is found, with the same end. */
  lemma KindPrefixEndComplete(t: string, name: string, m: int, e: int)
    requires KindHead(t, name, m) && GreedySpacesTo(t, m, e)
    ensures KindPrefixEnd(t, name) == Some(e)
  {
    var k := |name|;
    if m == k + 1 {
      SpanFromUnique(IsSpace, t, k + 1, e);
    } else {
      SpanFromUnique(NotCloseParen, t, k + 1, m - 2);
      SpanFromUnique(IsSpace, t, m, e);
    }
  }

  // ---------------------------------------------------------------------------------------
  // `^(breaking:|BREAKING\s*CHANGE:?)\s*` with the `i` flag
  // ---------------------------------------------------------------------------------------

  /** `lit` (lower case) occurs at `i` in `t` up to ASCII case. */
  predicate LowerLitAt(t: string, i: int, lit: string) {
    0 <= i && i + |lit| <= |t| && Lower(t[i..i + |lit|]) == lit
  }

  /**
   * `t[..m]` is accepted by the second alternative `BREAKING\s*CHANGE:?` (ignoring case) with
   * `CHANGE` starting at `w`, the optional colon taken whenever it is there.
   */
  predicate ChangeHead(t: string, w: int, m: int) {
    LowerLitAt(t, 0, "breaking") && SpacesBetween(t, 8, w) && LowerLitAt(t, w, "change") &&
    ((m == w + 7 && w + 6 < |t| && t[w + 6] == ':') || (m == w + 6 && (w + 6 == |t| || t[w + 6] != ':')))
  }

  /**
   * The replace pattern matches `t[..e]`: the first alternative when it applies, otherwise the
   * second, then the greedy whitespace.
   */
  ghost predicate BreakingMatch(t: string, e: int) {
    (LowerLitAt(t, 0, "breaking:") && GreedySpacesTo(t, 9, e)) ||
    (!LowerLitAt(t, 0, "breaking:") && exists w, m :: ChangeHead(t, w, m) && GreedySpacesTo(t, m, e))
  }

  /** End of the match of `^(breaking:|BREAKING\s*CHANGE:?)\s*` (case-insensitive) in `t`. */
  function BreakingPrefixEnd(t: string): (r: Option<nat>)
    ensures r.Some? ==> r.value <= |t|
  {
    if LowerLitAt(t, 0, "breaking:") then Some(SpanFrom(IsSpace, t, 9))
    else if LowerLitAt(t, 0, "breaking") then
      var w := SpanFrom(IsSpace, t, 8);
      if !LowerLitAt(t, w, "change") then None
      else if w + 6 < |t| && t[w + 6] == ':' then Some(SpanFrom(IsSpace, t, w + 7))
      else Some(SpanFrom(IsSpace, t, w + 6))
    else None
  }

  /** A match found is one the pattern accepts. */
  lemma BreakingPrefixEndSound(t: string)
    ensures BreakingPrefixEnd(t).Some? ==> BreakingMatch(t, BreakingPrefixEnd(t).value)
  {
    if BreakingPrefixEnd(t).Some? {
      if LowerLitAt(t, 0, "breaking:") {
        SpanFromSpec(IsSpace, t, 9);
      } else {
        var w := SpanFrom(IsSpace, t, 8);
        SpanFromSpec(IsSpace, t, 8);
        var m := if w + 6 < |t| && t[w + 6] == ':' then w + 7 else w + 6;
        SpanFromSpec(IsSpace, t, m);
        assert ChangeHead(t, w, m);
      }
    }
  }

  /** `CHANGE` can only start where the whitespace after `BREAKING` ends. */
  lemma ChangeHeadAtSpanEnd(t: string, w: int, m: int)
    requires ChangeHead(t, w, m)
    ensures SpanFrom(IsSpace, t, 8) == w
  {
    assert LowerChar(t[w]) == Lower(t[w..w + 6])[0] == 'c';
    SpanFromUnique(IsSpace, t, 8, w);
  }

  /** Every match the pattern accepts is found, with the same end. */
  lemma BreakingPrefixEndComplete(t: string, e: int)
    requires BreakingMatch(t, e)
    ensures BreakingPrefixEnd(t) == Some(e)
  {
    if LowerLitAt(t, 0, "breaking:") {
      SpanFromUnique(IsSpace, t, 9, e);
    } else {
      var w, m :| ChangeHead(t, w, m) && GreedySpacesTo(t, m, e);
      ChangeHeadAtSpanEnd(t, w, m);
      SpanFromUnique(IsSpace, t, m, e);
    }
  }

  // ---------------------------------------------------------------------------------------
  // parseChangeType
  // ---------------------------------------------------------------------------------------

  /** `t` without the matched prefix, or `t` itself when the replace pattern does not match. */
  function CutPrefix(t: string, end: Option<nat>): (r: string)
    requires end.Some? ==> end.value <= |t|
    ensures end.None? ==> r == t
    ensures end.Some? ==> r == t[end.value..]
  {
    match end
    case None => t
    case Some(e) => t[e..]
  }

  /**
   * The type and text of a bullet: the first of `feat`, `fix`, `docs`, `chore` whose prefix the
   * trimmed text starts with, then `breaking:`/`BREAKING`, else `other` with the trimmed text.
   */
  function ParseChangeType(description: string): (r: ChangeEntry)
    ensures r.kind == Other <==> !HasKnownPrefix(Trim(description))
    ensures r.kind == Other ==> r.description == Trim(description)
  {
    Classify(Trim(description))
  }

  /** One of the five tests of `parseChangeType` selects a type other than `other`. */
  predicate HasKnownPrefix(t: string) {
    HasKindPrefix(t, "feat") || HasKindPrefix(t, "fix") || HasKindPrefix(t, "docs") ||
    HasKindPrefix(t, "chore") || StartsWith(t, "breaking:") || StartsWith(t, "BREAKING")
  }

  /** `parseChangeType` after the `trim()`. */
  function Classify(t: string): (r: ChangeEntry)
    ensures r.kind == Other <==> !HasKnownPrefix(t)
    ensures r.kind == Other ==> r.description == t
  {
    if HasKindPrefix(t, "feat") then ChangeEntry(Feat, CutPrefix(t, KindPrefixEnd(t, "feat")))
    else if HasKindPrefix(t, "fix") then ChangeEntry(Fix, CutPrefix(t, KindPrefixEnd(t, "fix")))
    else if HasKindPrefix(t, "docs") then ChangeEntry(Docs, CutPrefix(t, KindPrefixEnd(t, "docs")))
    else if HasKindPrefix(t, "chore") then ChangeEntry(Chore, CutPrefix(t, KindPrefixEnd(t, "chore")))
    else if StartsWith(t, "breaking:") || StartsWith(t, "BREAKING") then
      ChangeEntry(Breaking, CutPrefix(t, BreakingPrefixEnd(t)))
    else ChangeEntry(Other, t)
  }

  /** The kept text is always a suffix of the trimmed description: nothing is invented. */
  lemma ParseChangeTypeSuffix(description: string)
    ensures exists i :: 0 <= i <= |Trim(description)| && ParseChangeType(description).description == Trim(description)[i..]
  {
    ClassifySuffix(Trim(description));
  }

  lemma ClassifySuffix(t: string)
    ensures exists i :: 0 <= i <= |t| && Classify(t).description == t[i..]
  {
    if Classify(t).description == t {
      assert t[0..] == t;
    }
  }

  /** Surrounding whitespace never changes the outcome. */
  lemma ParseChangeTypeTrimmed(description: string)
    ensures ParseChangeType(Trim(description)) == ParseChangeType(description)
  {
    TrimOfTrimmed(Trim(description));
  }

  /** A text ending without whitespace and starting with a non-space character `c`. */
  predicate Tight(x: string) {
    |x| >= 1 && !IsSpace(x[0]) && !IsSpace(x[|x| - 1])
  }

  /** A description without surrounding whitespace is classified as it stands. */
  lemma ParseTight(t: string)
    requires Tight(t)
    ensures ParseChangeType(t) == Classify(t)
  {
    TrimOfTrimmed(t);
  }

  /** `name: x` is classified as `name` with text `x`. */
  lemma ConventionalRoundTrip(k: ChangeType, x: string)
    requires IsConventional(k) && Tight(x)
    ensures ParseChangeType(KindName(k) + ": " + x) == ChangeEntry(k, x)
  {
    var name := KindName(k);
    var t := name + ": " + x;
    var n := |name|;
    ColonText(name, x);
    ParseTight(t);
    KindPrefixEndComplete(t, name, n + 1, n + 2);
    ClassifyConventional(k, t);
  }

  /** The shape of `name: x`: an unscoped head, one space, then `x`. */
  lemma ColonText(name: string, x: string)
    requires |name| >= 1 && !IsSpace(name[0]) && Tight(x)
    ensures var t := name + ": " + x; var n := |name|;
      Tight(t) && KindHead(t, name, n + 1) && GreedySpacesTo(t, n + 1, n + 2) && t[n + 2..] == x &&
      t[..n] == name && t[n] == ':'
  {
    var t := name + ": " + x;
    var n := |name|;
    assert t[..n] == name && t[n] == ':' && t[n + 1] == ' ' && t[n + 2] == x[0];
    assert t[n + 2..] == x;
  }

  /** `name(scope): x` is classified as `name` with text `x`, for any scope without `)`. */
  lemma ScopedRoundTrip(k: ChangeType, scope: string, x: string)
    requires IsConventional(k) && Tight(x)
    requires |scope| >= 1 && ')' !in scope
    ensures ParseChangeType(KindName(k) + "(" + scope + "): " + x) == ChangeEntry(k, x)
  {
    var name := KindName(k);
    var t := name + "(" + scope + "): " + x;
    var m := |name| + |scope| + 3;
    ScopedText(name, scope, x);
    ParseTight(t);
    KindPrefixEndComplete(t, name, m, m + 1);
    ClassifyConventional(k, t);
  }

  /** The shape of `name(scope): x`: a scoped head, one space, then `x`. */
  lemma ScopedText(name: string, scope: string, x: string)
    requires |name| >= 1 && !IsSpace(name[0]) && Tight(x)
    requires |scope| >= 1 && ')' !in scope
    ensures var t := name + "(" + scope + "): " + x; var m := |name| + |scope| + 3;
      Tight(t) && KindHead(t, name, m) && GreedySpacesTo(t, m, m + 1) && t[m + 1..] == x &&
      t[..|name|] == name && t[|name|] == '('
  {
    var t := name + "(" + scope + "): " + x;
    var n := |name|;
    var m := n + |scope| + 3;
    assert t[..n] == name && t[n] == '(';
    assert t[m - 2] == ')' && t[m - 1] == ':' && t[m] == ' ' && t[m + 1] == x[0];
    assert forall j :: n + 1 <= j < m - 2 ==> t[j] == scope[j - n - 1];
    assert t[m + 1..] == x;
  }

  /** A text that starts with `name:` or `name(` is classified as `name`, the earlier names not applying. */
  lemma ClassifyConventional(k: ChangeType, t: string)
    requires IsConventional(k)
    requires |KindName(k)| < |t| && t[..|KindName(k)|] == KindName(k) && (t[|KindName(k)|] == ':' || t[|KindName(k)|] == '(')
    ensures Classify(t) == ChangeEntry(k, CutPrefix(t, KindPrefixEnd(t, KindName(k))))
  {
    var name := KindName(k);
    HasKindPrefixOf(t, name);
    assert t[0] == name[0] && t[1] == name[1];
    match k
    case Feat =>
    case Fix =>
      NoKindPrefix(t, "feat");
    case Docs =>
      NoKindPrefix(t, "feat");
      NoKindPrefix(t, "fix");
    case Chore =>
      NoKindPrefix(t, "feat");
      NoKindPrefix(t, "fix");
      NoKindPrefix(t, "docs");
  }

  lemma HasKindPrefixOf(t: string, name: string)
    requires |name| < |t| && t[..|name|] == name && (t[|name|] == ':' || t[|name|] == '(')
    ensures HasKindPrefix(t, name)
  {
    assert t[..|name| + 1] == name + [t[|name|]];
  }

  /** A text whose first two characters differ from those of `name` has no `name` prefix. */
  lemma NoKindPrefix(t: string, name: string)
    requires |name| >= 2 && (|t| < 2 || t[0] != name[0] || t[1] != name[1])
    ensures !HasKindPrefix(t, name)
  {
  }

  /** A text starting with `B` or `b` and passing the breaking test is a breaking change. */
  lemma ClassifyBreaking(t: string)
    requires |t| >= 1 && (t[0] == 'B' || t[0] == 'b')
    requires StartsWith(t, "breaking:") || StartsWith(t, "BREAKING")
    ensures Classify(t) == ChangeEntry(Breaking, CutPrefix(t, BreakingPrefixEnd(t)))
  {
    NoKindPrefix(t, "feat");
    NoKindPrefix(t, "fix");
    NoKindPrefix(t, "docs");
    NoKindPrefix(t, "chore");
  }

  lemma LowerBreaking()
    ensures Lower("BREAKING") == "breaking" && Lower("breaking") == "breaking"
  {
  }

  lemma LowerChange()
    ensures Lower("CHANGE") == "change"
  {
  }

  /** `BREAKING CHANGE: x` is a breaking change with text `x`. */
  lemma BreakingChangeRoundTrip(x: string)
    requires Tight(x)
    ensures ParseChangeType("BREAKING CHANGE: " + x) == ChangeEntry(Breaking, x)
  {
    var t := "BREAKING CHANGE: " + x;
    BreakingChangeText(x);
    ParseTight(t);
    assert BreakingMatch(t, 17);
    BreakingPrefixEndComplete(t, 17);
    ClassifyBreaking(t);
  }

  lemma BreakingChangeText(x: string)
    requires Tight(x)
    ensures var t := "BREAKING CHANGE: " + x;
      Tight(t) && t[0] == 'B' && StartsWith(t, "BREAKING") && !LowerLitAt(t, 0, "breaking:") &&
      ChangeHead(t, 9, 16) && GreedySpacesTo(t, 16, 17) && t[17..] == x
  {
    var t := "BREAKING CHANGE: " + x;
    assert t[..8] == "BREAKING" && t[8] == ' ' && t[9..15] == "CHANGE" && t[15] == ':' && t[16] == ' ' && t[17] == x[0];
    LowerBreaking();
    LowerChange();
    assert Lower(t[0..9])[8] == ' ';
    assert t[17..] == x;
  }

  /** `breaking: x`, and with the case-insensitive pattern also `BREAKING: x`, keep only `x`. */
  lemma BreakingColonRoundTrip(head: string, x: string)
    requires head == "breaking:" || head == "BREAKING:"
    requires Tight(x)
    ensures ParseChangeType(head + " " + x) == ChangeEntry(Breaking, x)
  {
    var t := head + " " + x;
    BreakingColonText(head, x);
    ParseTight(t);
    BreakingPrefixEndComplete(t, 10);
    ClassifyBreaking(t);
  }

  lemma BreakingColonText(head: string, x: string)
    requires head == "breaking:" || head == "BREAKING:"
    requires Tight(x)
    ensures var t := head + " " + x;
      Tight(t) && (t[0] == 'B' || t[0] == 'b') && (StartsWith(t, "breaking:") || StartsWith(t, "BREAKING")) &&
      LowerLitAt(t, 0, "breaking:") && GreedySpacesTo(t, 9, 10) && t[10..] == x
  {
    var t := head + " " + x;
    assert t[..9] == head && t[9] == ' ' && t[10] == x[0];
    assert t[..8] == head[..8];
    LowerBreaking();
    assert Lower(t[0..9]) == Lower(t[0..8]) + [':'];
    assert t[10..] == x;
  }
}

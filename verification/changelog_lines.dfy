/**
 * The line patterns `parseChangelog` recognises, one matcher per regular expression.
 *
 * Each matcher is stated against the shape of the lines its expression accepts, with the
 * backtracking behaviour of ECMAScript regular expressions made explicit: a greedy `\s*` or
 * `\s+` gives back characters only when what follows cannot match otherwise, the lazy label
 * `(.+?)` is the shortest one that lets the rest of the line match, `.` never matches a line
 * terminator, and `$` (no `m` flag) means the end of the line.
 */
module ChangelogLines {
  import opened Wrappers
  import opened Text

  // ---------------------------------------------------------------------------------------
  // `(.+)$` after a whitespace run: the capture that ends every entry pattern
  // ---------------------------------------------------------------------------------------

  /** `t[..k]` can be the `\s{minWs,}` run and `t[k..]` the `(.+)$` capture. */
  predicate TailSplit(t: string, minWs: nat, k: int) {
    minWs <= k < |t| && AllSpace(t[..k]) && NoLineTerminator(t[k..])
  }

  /** `c` is what the greedy run leaves to the capture: the split with the longest run. */
  ghost predicate GreedyCapture(t: string, minWs: nat, c: string) {
    && |c| <= |t|
    && TailSplit(t, minWs, |t| - |c|)
    && t[|t| - |c|..] == c
    && forall k :: TailSplit(t, minWs, k) ==> k <= |t| - |c|
  }

  /** `\s{minWs,}(.+)$` matched against all of `t`, returning the capture. */
  function TailCapture(t: string, minWs: nat): Option<string>
  {
    var w := SpanFrom(IsSpace, t, 0);
    if w < minWs then None
    else if w < |t| then
      if NoLineTerminatorFrom(t, w) then Some(t[w..]) else None
    else if w >= minWs + 1 && !IsLineTerminator(t[w - 1]) then Some(t[w - 1..])
    else None
  }

  /** The greedy run gives back exactly what the capture needs, and no split means no match. */
  lemma TailCaptureSpec(t: string, minWs: nat)
    ensures TailCapture(t, minWs).Some? ==> GreedyCapture(t, minWs, TailCapture(t, minWs).value)
    ensures TailCapture(t, minWs).None? ==> forall k :: !TailSplit(t, minWs, k)
  {
    var w := SpanFrom(IsSpace, t, 0);
    SpanFromSpec(IsSpace, t, 0);
    if w < minWs {
      forall k | minWs <= k < |t| ensures !AllSpace(t[..k]) {
        assert t[..k][w] == t[w];
      }
    } else if w < |t| {
      forall k | w < k < |t| ensures !AllSpace(t[..k]) {
        assert t[..k][w] == t[w];
      }
      if NoLineTerminatorFrom(t, w) {
        assert NoLineTerminator(t[w..]);
      } else {
        forall k | 0 <= k <= w ensures !NoLineTerminator(t[k..]) {
          var p :| w <= p < |t| && IsLineTerminator(t[p]);
          assert t[k..][p - k] == t[p];
        }
      }
    } else if w >= minWs + 1 && !IsLineTerminator(t[w - 1]) {
      assert t[..w - 1] == t[..w][..w - 1];
    } else {
      forall k | minWs <= k < |t| ensures !NoLineTerminator(t[k..]) {
        assert t[k..][|t| - 1 - k] == t[w - 1];
      }
    }
  }

  // ---------------------------------------------------------------------------------------
  // `\d+\.\d+\.\d+`
  // ---------------------------------------------------------------------------------------

  /** `s[i..e]` is three non-empty digit groups joined by the dots at `d1` and `d2`. */
  predicate TripleSplit(s: string, i: int, e: int, d1: int, d2: int) {
    && DigitsBetween(s, i, d1) && d1 < |s| && s[d1] == '.'
    && DigitsBetween(s, d1 + 1, d2) && d2 < |s| && s[d2] == '.'
    && DigitsBetween(s, d2 + 1, e)
  }

  /** `s[i..e]` matches `\d+\.\d+\.\d+` in full. */
  ghost predicate TripleAt(s: string, i: int, e: int) {
    exists d1, d2 :: TripleSplit(s, i, e, d1, d2)
  }

  /** `n` is a dotted version number such as `0.8.3`. */
  ghost predicate IsDottedTriple(n: string) {
    TripleAt(n, 0, |n|)
  }

  /** A slice keeps the dotted-number shape. */
  lemma TripleSlice(s: string, i: int, e: int)
    requires TripleAt(s, i, e)
    ensures IsDottedTriple(s[i..e])
  {
    var d1, d2 :| TripleSplit(s, i, e, d1, d2);
    assert TripleSplit(s[i..e], 0, e - i, d1 - i, d2 - i);
  }

  /** End of the `\d+\.\d+\.\d+` match starting at index `i` of `s`, if any. */
  function TripleEnd(s: string, i: nat): (r: Option<nat>)
    requires i <= |s|
    ensures r.Some? ==> i < r.value <= |s|
  {
    var d1 := SpanFrom(IsDigit, s, i);
    if d1 == i || d1 == |s| || s[d1] != '.' then None
    else
      var d2 := SpanFrom(IsDigit, s, d1 + 1);
      if d2 == d1 + 1 || d2 == |s| || s[d2] != '.' then None
      else
        var e := SpanFrom(IsDigit, s, d2 + 1);
        if e == d2 + 1 then None else Some(e)
  }

  /** What is found is a triple, and a digit never follows it (the `\d+` runs are greedy). */
  lemma TripleEndSound(s: string, i: nat)
    requires i <= |s|
    ensures TripleEnd(s, i).Some? ==> TripleAt(s, i, TripleEnd(s, i).value)
    ensures TripleEnd(s, i).Some? ==> TripleEnd(s, i).value < |s| ==> !IsDigit(s[TripleEnd(s, i).value])
  {
    var d1 := SpanFrom(IsDigit, s, i);
    SpanFromSpec(IsDigit, s, i);
    if d1 != i && d1 != |s| && s[d1] == '.' {
      var d2 := SpanFrom(IsDigit, s, d1 + 1);
      SpanFromSpec(IsDigit, s, d1 + 1);
      if d2 != d1 + 1 && d2 != |s| && s[d2] == '.' {
        var e := SpanFrom(IsDigit, s, d2 + 1);
        SpanFromSpec(IsDigit, s, d2 + 1);
        if e != d2 + 1 {
          assert TripleSplit(s, i, e, d1, d2);
        }
      }
    }
  }

  /** A triple that is not followed by a digit is found, with its own end. */
  lemma TripleEndComplete(s: string, i: nat, e: nat)
    requires i <= |s|
    requires TripleAt(s, i, e)
    requires e < |s| ==> !IsDigit(s[e])
    ensures TripleEnd(s, i) == Some(e)
  {
    var d1, d2 :| TripleSplit(s, i, e, d1, d2);
    SpanFromUnique(IsDigit, s, i, d1);
    SpanFromUnique(IsDigit, s, d1 + 1, d2);
    SpanFromUnique(IsDigit, s, d2 + 1, e);
  }

  // ---------------------------------------------------------------------------------------
  // `^## \[v?(\d+\.\d+\.\d+)\]\s*-\s*(\d{4}-\d{2}-\d{2})`
  // ---------------------------------------------------------------------------------------

  /** The two captures of a version header: the dotted number and the date. */
  datatype VersionHeader = VersionHeader(number: string, date: string)

  /** `\d{4}-\d{2}-\d{2}` at index `i` of `s`. */
  predicate IsoDateAt(s: string, i: int) {
    && 0 <= i && i + 10 <= |s|
    && DigitsBetween(s, i, i + 4) && s[i + 4] == '-'
    && DigitsBetween(s, i + 5, i + 7) && s[i + 7] == '-'
    && DigitsBetween(s, i + 8, i + 10)
  }

  /** `d` is a date in the `YYYY-MM-DD` layout. */
  predicate IsIsoDate(d: string) {
    |d| == 10 && IsoDateAt(d, 0)
  }

  /**
   * `line` is a version header carrying `h`: the number occupies `line[i..e]` (after `## [`
   * and an optional `v`), `]` sits at `e`, whitespace runs to the `-` at `d`, whitespace runs
   * to the date at `f`. Anything may follow the date.
   */
  ghost predicate VersionHeaderSplit(line: string, h: VersionHeader, i: int, e: int, d: int, f: int) {
    && LitAt(line, 0, "## [")
    && (i == 4 || (i == 5 && LitAt(line, 4, "v")))
    && TripleAt(line, i, e)
    && LitAt(line, e, "]")
    && SpacesBetween(line, e + 1, d) && LitAt(line, d, "-")
    && SpacesBetween(line, d + 1, f) && IsoDateAt(line, f)
    && h == VersionHeader(line[i..e], line[f..f + 10])
  }

  ghost predicate IsVersionHeaderOf(line: string, h: VersionHeader) {
    exists i, e, d, f :: VersionHeaderSplit(line, h, i, e, d, f)
  }

  /** Matches the version-header expression at the start of `line`. */
  function MatchVersionHeader(line: string): (r: Option<VersionHeader>)
  {
    if !LitAt(line, 0, "## [") then None
    else
      var i := if LitAt(line, 4, "v") then 5 else 4;
      match TripleEnd(line, i)
      case None => None
      case Some(e) => MatchDateAfter(line, i, e)
  }

  /** The part of the version-header expression after the number `line[i..e]`. */
  function MatchDateAfter(line: string, i: nat, e: nat): (r: Option<VersionHeader>)
    requires i <= e <= |line|
  {
    if !LitAt(line, e, "]") then None
    else
      var d := SpanFrom(IsSpace, line, e + 1);
      if !LitAt(line, d, "-") then None
      else
        var f := SpanFrom(IsSpace, line, d + 1);
        if !IsoDateAt(line, f) then None
        else Some(VersionHeader(line[i..e], line[f..f + 10]))
  }

  /** A recognised version header has the shape, and the captures are the ones it carries. */
  lemma MatchVersionHeaderSound(line: string)
    ensures MatchVersionHeader(line).Some? ==> IsVersionHeaderOf(line, MatchVersionHeader(line).value)
  {
    if LitAt(line, 0, "## [") {
      var i := if LitAt(line, 4, "v") then 5 else 4;
      TripleEndSound(line, i);
      match TripleEnd(line, i)
      case None =>
      case Some(e) => MatchDateAfterSound(line, i, e);
    }
  }

  lemma MatchDateAfterSound(line: string, i: nat, e: nat)
    requires LitAt(line, 0, "## [") && (i == 4 || (i == 5 && LitAt(line, 4, "v"))) && TripleAt(line, i, e)
    requires e <= |line|
    ensures MatchDateAfter(line, i, e).Some? ==> IsVersionHeaderOf(line, MatchDateAfter(line, i, e).value)
  {
    if MatchDateAfter(line, i, e).Some? {
      var d, f := MatchDateAfterParts(line, i, e);
      VersionHeaderIntro(line, i, e, d, f);
    }
  }

  /** The positions of the `-` and of the date behind a recognised `]`. */
  lemma MatchDateAfterParts(line: string, i: nat, e: nat) returns (d: int, f: int)
    requires i <= e <= |line| && MatchDateAfter(line, i, e).Some?
    ensures LitAt(line, e, "]") && SpacesBetween(line, e + 1, d) && LitAt(line, d, "-")
    ensures SpacesBetween(line, d + 1, f) && IsoDateAt(line, f)
    ensures MatchDateAfter(line, i, e) == Some(VersionHeader(line[i..e], line[f..f + 10]))
  {
    d := SpanFrom(IsSpace, line, e + 1);
    SpanFromSpec(IsSpace, line, e + 1);
    f := SpanFrom(IsSpace, line, d + 1);
    SpanFromSpec(IsSpace, line, d + 1);
  }

  lemma VersionHeaderIntro(line: string, i: int, e: int, d: int, f: int)
    requires LitAt(line, 0, "## [") && (i == 4 || (i == 5 && LitAt(line, 4, "v"))) && TripleAt(line, i, e)
    requires LitAt(line, e, "]") && SpacesBetween(line, e + 1, d) && LitAt(line, d, "-")
    requires SpacesBetween(line, d + 1, f) && IsoDateAt(line, f)
    ensures IsVersionHeaderOf(line, VersionHeader(line[i..e], line[f..f + 10]))
  {
    assert VersionHeaderSplit(line, VersionHeader(line[i..e], line[f..f + 10]), i, e, d, f);
  }

  /** Every line of version-header shape is recognised, with its own captures. */
  lemma MatchVersionHeaderComplete(line: string, h: VersionHeader, i: int, e: int, d: int, f: int)
    requires VersionHeaderSplit(line, h, i, e, d, f)
    ensures MatchVersionHeader(line) == Some(h)
  {
    VersionNumberFound(line, i, e);
    DateAfterFound(line, i, e, d, f);
    MatchVersionHeaderOf(line, i, e);
  }

  /** The number of a version header is found where it starts, with its own end. */
  lemma VersionNumberFound(line: string, i: int, e: int)
    requires LitAt(line, 0, "## [") && (i == 4 || (i == 5 && LitAt(line, 4, "v"))) && TripleAt(line, i, e)
    requires LitAt(line, e, "]")
    ensures (if LitAt(line, 4, "v") then 5 else 4) == i
    ensures TripleEnd(line, i) == Some(e)
  {
    var d1, d2 :| TripleSplit(line, i, e, d1, d2);
    assert IsDigit(line[i]);
    if LitAt(line, 4, "v") { assert line[4] == 'v'; }
    assert line[e] == line[e..e + 1][0];
    TripleEndComplete(line, i, e);
  }

  /** The `]`, `-` and date after the number are found at their own positions. */
  lemma DateAfterFound(line: string, i: int, e: int, d: int, f: int)
    requires 0 <= i <= e
    requires LitAt(line, e, "]") && SpacesBetween(line, e + 1, d) && LitAt(line, d, "-")
    requires SpacesBetween(line, d + 1, f) && IsoDateAt(line, f)
    ensures MatchDateAfter(line, i, e) == Some(VersionHeader(line[i..e], line[f..f + 10]))
  {
    assert line[d] == line[d..d + 1][0];
    SpanFromUnique(IsSpace, line, e + 1, d);
    assert IsDigit(line[f]);
    SpanFromUnique(IsSpace, line, d + 1, f);
    MatchDateAfterOf(line, i, e, d, f);
  }

  lemma MatchVersionHeaderOf(line: string, i: int, e: int)
    requires LitAt(line, 0, "## [") && (if LitAt(line, 4, "v") then 5 else 4) == i
    requires TripleEnd(line, i) == Some(e)
    ensures MatchVersionHeader(line) == MatchDateAfter(line, i, e)
  {
  }

  lemma MatchDateAfterOf(line: string, i: nat, e: nat, d: nat, f: nat)
    requires i <= e && LitAt(line, e, "]") && SpanFrom(IsSpace, line, e + 1) == d
    requires LitAt(line, d, "-") && SpanFrom(IsSpace, line, d + 1) == f
    requires IsoDateAt(line, f)
    ensures MatchDateAfter(line, i, e) == Some(VersionHeader(line[i..e], line[f..f + 10]))
  {
  }

  /** The captures of a version header: a dotted number and a `YYYY-MM-DD` date. */
  lemma VersionHeaderCaptures(line: string, h: VersionHeader)
    requires IsVersionHeaderOf(line, h)
    ensures IsDottedTriple(h.number) && IsIsoDate(h.date)
  {
    var i, e, d, f :| VersionHeaderSplit(line, h, i, e, d, f);
    VersionCapturesAt(line, i, e, f);
  }

  lemma VersionCapturesAt(line: string, i: int, e: int, f: int)
    requires TripleAt(line, i, e) && IsoDateAt(line, f)
    ensures IsDottedTriple(line[i..e]) && IsIsoDate(line[f..f + 10])
  {
    TripleSlice(line, i, e);
    assert IsoDateAt(line[f..f + 10], 0);
  }

  // ---------------------------------------------------------------------------------------
  // `^## \[Unreleased\]` with the `i` flag
  // ---------------------------------------------------------------------------------------

  /** The line starts `## [`, the word "unreleased" in any ASCII letter case, then `]`. */
  predicate IsUnreleasedHeader(line: string) {
    |line| >= 15 && line[..4] == "## [" && Lower(line[4..14]) == "unreleased" && line[14] == ']'
  }

  // ---------------------------------------------------------------------------------------
  // `^### (@teamflojo\/[\w-]+)\s*\((\d+\.\d+\.\d+)\)`
  // ---------------------------------------------------------------------------------------

  /** The two captures of a package header: the scoped package name and its version. */
  datatype PackageHeader = PackageHeader(name: string, version: string)

  const PackageScope: string := "@teamflojo/"

  /** `[\w-]` */
  predicate IsPackageChar(c: char) {
    IsWordChar(c) || c == '-'
  }

  /**
   * `line` is a package header carrying `h`: `### @teamflojo/`, the name's `[\w-]+` tail up to
   * `n`, whitespace up to the `(` at `p`, the version up to the `)` at `e`; anything may follow.
   */
  ghost predicate PackageHeaderSplit(line: string, h: PackageHeader, n: int, p: int, e: int) {
    && LitAt(line, 0, "### ") && LitAt(line, 4, PackageScope)
    && 15 < n <= |line| && (forall k :: 15 <= k < n ==> IsPackageChar(line[k]))
    && SpacesBetween(line, n, p) && LitAt(line, p, "(")
    && TripleAt(line, p + 1, e) && LitAt(line, e, ")")
    && h == PackageHeader(line[4..n], line[p + 1..e])
  }

  ghost predicate IsPackageHeaderOf(line: string, h: PackageHeader) {
    exists n, p, e :: PackageHeaderSplit(line, h, n, p, e)
  }

  /** Matches the package-header expression at the start of `line`. */
  function MatchPackageHeader(line: string): (r: Option<PackageHeader>)
  {
    if !LitAt(line, 0, "### ") || !LitAt(line, 4, PackageScope) then None
    else
      var n := SpanFrom(IsPackageChar, line, 15);
      var p := SpanFrom(IsSpace, line, n);
      if n == 15 || !LitAt(line, p, "(") then None
      else
        match TripleEnd(line, p + 1)
        case None => None
        case Some(e) =>
          if !LitAt(line, e, ")") then None
          else Some(PackageHeader(line[4..n], line[p + 1..e]))
  }

  /** A recognised package header has the shape, and the captures are the ones it carries. */
  lemma MatchPackageHeaderSound(line: string)
    ensures MatchPackageHeader(line).Some? ==> IsPackageHeaderOf(line, MatchPackageHeader(line).value)
  {
    if MatchPackageHeader(line).Some? {
      var n, p, e := MatchPackageHeaderParts(line);
      assert PackageHeaderSplit(line, MatchPackageHeader(line).value, n, p, e);
    }
  }

  /** The name end, the `(` and the `)` of a recognised package header. */
  lemma MatchPackageHeaderParts(line: string) returns (n: int, p: int, e: int)
    requires MatchPackageHeader(line).Some?
    ensures LitAt(line, 0, "### ") && LitAt(line, 4, PackageScope)
    ensures 15 < n <= |line| && (forall k :: 15 <= k < n ==> IsPackageChar(line[k]))
    ensures SpacesBetween(line, n, p) && LitAt(line, p, "(")
    ensures TripleAt(line, p + 1, e) && LitAt(line, e, ")")
    ensures MatchPackageHeader(line) == Some(PackageHeader(line[4..n], line[p + 1..e]))
  {
    n := SpanFrom(IsPackageChar, line, 15);
    p := SpanFrom(IsSpace, line, n);
    SpanFromSpec(IsPackageChar, line, 15);
    SpanFromSpec(IsSpace, line, n);
    TripleEndSound(line, p + 1);
    e := TripleEnd(line, p + 1).value;
  }

  /** Every line of package-header shape is recognised, with its own captures. */
  lemma MatchPackageHeaderComplete(line: string, h: PackageHeader, n: int, p: int, e: int)
    requires PackageHeaderSplit(line, h, n, p, e)
    ensures MatchPackageHeader(line) == Some(h)
  {
    PackageNameFound(line, n, p);
    assert line[e] == line[e..e + 1][0];
    TripleEndComplete(line, p + 1, e);
    MatchPackageHeaderOf(line, n, p, e);
  }

  /** The name and the whitespace after it end where the header's shape says. */
  lemma PackageNameFound(line: string, n: int, p: int)
    requires 15 < n <= |line| && (forall k :: 15 <= k < n ==> IsPackageChar(line[k]))
    requires SpacesBetween(line, n, p) && LitAt(line, p, "(")
    ensures SpanFrom(IsPackageChar, line, 15) == n && SpanFrom(IsSpace, line, n) == p
  {
    assert line[p] == line[p..p + 1][0];
    assert !IsPackageChar(line[n]) by {
      if n < p { assert IsSpace(line[n]); }
    }
    SpanFromUnique(IsPackageChar, line, 15, n);
    SpanFromUnique(IsSpace, line, n, p);
  }

  lemma MatchPackageHeaderOf(line: string, n: int, p: int, e: int)
    requires LitAt(line, 0, "### ") && LitAt(line, 4, PackageScope) && 15 < n <= |line|
    requires SpanFrom(IsPackageChar, line, 15) == n && SpanFrom(IsSpace, line, n) == p
    requires LitAt(line, p, "(") && TripleEnd(line, p + 1) == Some(e) && LitAt(line, e, ")")
    ensures MatchPackageHeader(line) == Some(PackageHeader(line[4..n], line[p + 1..e]))
  {
  }

  /** The captures of a package header: a name in the `@teamflojo/` scope and a dotted version. */
  lemma PackageHeaderCaptures(line: string, h: PackageHeader)
    requires IsPackageHeaderOf(line, h)
    ensures StartsWith(h.name, PackageScope) && |h.name| > |PackageScope|
    ensures IsDottedTriple(h.version)
  {
    var n, p, e :| PackageHeaderSplit(line, h, n, p, e);
    PackageCapturesAt(line, n, p, e);
  }

  lemma PackageCapturesAt(line: string, n: int, p: int, e: int)
    requires LitAt(line, 4, PackageScope) && 15 < n <= |line| && TripleAt(line, p + 1, e)
    ensures StartsWith(line[4..n], PackageScope) && n - 4 > |PackageScope|
    ensures IsDottedTriple(line[p + 1..e])
  {
    assert line[4..n][..|PackageScope|] == line[4..15];
    TripleSlice(line, p + 1, e);
  }

  // ---------------------------------------------------------------------------------------
  // `^### (Added|Fixed|Changed|Repository|Removed|Security|Notes)$`
  // ---------------------------------------------------------------------------------------

  /** The Keep-a-Changelog section names the parser accepts, exactly as spelled. */
  const SectionNames: seq<string> := ["Added", "Fixed", "Changed", "Repository", "Removed", "Security", "Notes"]

  /** The section name of a section-header line: the whole line must be `### ` and the name. */
  function MatchSectionHeader(line: string): Option<string>
  {
    if StartsWith(line, "### ") && line[4..] in SectionNames then Some(line[4..]) else None
  }

  /** A recognised section header is `### ` followed by one of the names, and nothing else. */
  lemma MatchSectionHeaderSound(line: string)
    ensures MatchSectionHeader(line).Some? ==>
      line == "### " + MatchSectionHeader(line).value && MatchSectionHeader(line).value in SectionNames
  {
    if MatchSectionHeader(line).Some? {
      assert line == "### " + line[4..];
    }
  }

  /** `### ` followed by one of the names is recognised, with that name. */
  lemma MatchSectionHeaderOf(name: string)
    requires name in SectionNames
    ensures MatchSectionHeader("### " + name) == Some(name)
  {
    assert ("### " + name)[4..] == name;
  }

  // ---------------------------------------------------------------------------------------
  // `^-\s+(.+)$` and `^#### (.+)$`
  // ---------------------------------------------------------------------------------------

  /** The text of a top-level bullet: `-`, at least one whitespace character, then the capture. */
  function MatchBullet(line: string): Option<string>
  {
    if |line| >= 1 && line[0] == '-' then TailCapture(line[1..], 1) else None
  }

  /** A bullet's text is the greedy capture after `-` and its whitespace; no split, no bullet. */
  lemma MatchBulletSpec(line: string)
    ensures MatchBullet(line).Some? ==>
      |line| >= 1 && line[0] == '-' && GreedyCapture(line[1..], 1, MatchBullet(line).value)
    ensures MatchBullet(line).None? ==> |line| == 0 || line[0] != '-' || forall k :: !TailSplit(line[1..], 1, k)
  {
    if |line| >= 1 && line[0] == '-' {
      TailCaptureSpec(line[1..], 1);
    }
  }

  /** `- x` is a bullet with text `x` when `x` starts with a non-space and stays on one line. */
  lemma MatchBulletOf(x: string)
    requires |x| >= 1 && !IsSpace(x[0]) && NoLineTerminator(x)
    ensures MatchBullet("- " + x) == Some(x)
  {
    var t := ("- " + x)[1..];
    assert t == " " + x;
    SpanFromUnique(IsSpace, t, 0, 1);
    assert t[1..] == x;
  }

  /** A line that does not start with `#` is no header of any kind. */
  lemma NotHeader(line: string)
    requires |line| >= 1 && line[0] != '#'
    ensures MatchVersionHeader(line).None? && !IsUnreleasedHeader(line)
    ensures MatchPackageHeader(line).None? && MatchSectionHeader(line).None? && MatchSubHeader(line).None?
  {
    if |line| >= 4 {
      assert line[0..4][0] == line[0];
    }
    if |line| >= 5 {
      assert line[..5][0] == line[0];
    }
  }

  /** An unreleased header is no version header: a letter stands where the number would begin. */
  lemma UnreleasedNotVersion(line: string)
    requires IsUnreleasedHeader(line)
    ensures MatchVersionHeader(line).None?
  {
    assert LowerChar(line[4]) == Lower(line[4..14])[0] == 'u';
    assert line[4..5] != "v";
    assert SpanFrom(IsDigit, line, 4) == 4;
  }

  /** `#### c` is only a sub-header, with text `c`. */
  lemma SubHeaderLine(c: string)
    requires |c| >= 1 && NoLineTerminator(c)
    ensures var line := "#### " + c;
      MatchVersionHeader(line).None? && !IsUnreleasedHeader(line) && MatchPackageHeader(line).None? &&
      MatchSectionHeader(line).None? && MatchBullet(line).None? && MatchSubHeader(line) == Some(c)
  {
    var line := "#### " + c;
    assert line[..4] == "####" && line[4] == ' ';
    assert !LitAt(line, 0, "## [") && !LitAt(line, 0, "### ");
    MatchSubHeaderOf(c);
  }

  /** The text of a `#### ` sub-header: everything after the marker, non-empty, on one line. */
  function MatchSubHeader(line: string): Option<string>
  {
    if StartsWith(line, "#### ") && |line| > 5 && NoLineTerminator(line[5..]) then Some(line[5..]) else None
  }

  /** A recognised sub-header is `#### ` followed by its non-empty one-line text. */
  lemma MatchSubHeaderSound(line: string)
    ensures MatchSubHeader(line).Some? ==>
      line == "#### " + MatchSubHeader(line).value && |MatchSubHeader(line).value| >= 1 &&
      NoLineTerminator(MatchSubHeader(line).value)
  {
    if MatchSubHeader(line).Some? {
      assert line == "#### " + line[5..];
    }
  }

  /** `#### c` with a non-empty one-line `c` is recognised, with text `c`. */
  lemma MatchSubHeaderOf(c: string)
    requires |c| >= 1 && NoLineTerminator(c)
    ensures MatchSubHeader("#### " + c) == Some(c)
  {
    assert ("#### " + c)[5..] == c;
  }

  // ---------------------------------------------------------------------------------------
  // `^\s+-\s+\*\*(.+?)\*\*\s*[-–]\s*(.+)$` and `^\s+-\s+\*\*(.+?)\*\*\s+(.+)$`
  // ---------------------------------------------------------------------------------------

  /** The two nested-bullet expressions differ only in what separates the label from the text. */
  datatype Separator =
    | Dashed  // `\s*[-–]\s*`
    | Spaced  // `\s+`

  /** The captures of a nested bullet: the bold label and the text after the separator. */
  datatype NestedItem = NestedItem(bold: string, text: string)

  /** `[-–]`: a hyphen or an en dash. */
  predicate IsDash(c: char) {
    c == '-' || c == '\U{2013}'
  }

  /** `t[..j]` is whitespace and `t[j]` a dash. */
  predicate DashAt(t: string, j: int) {
    SpacesBetween(t, 0, j) && j < |t| && IsDash(t[j])
  }

  /** The separator and `(.+)$` matched against all of `t`, returning the capture. */
  function SeparatorTail(sep: Separator, t: string): Option<string>
  {
    match sep
    case Spaced => TailCapture(t, 1)
    case Dashed =>
      var w := SpanFrom(IsSpace, t, 0);
      if w < |t| && IsDash(t[w]) then TailCapture(t[w + 1..], 0) else None
  }

  /** The dash (if any) is the first non-space character; the capture is the greedy one after it. */
  lemma SeparatorTailSpec(sep: Separator, t: string)
    ensures sep == Dashed && SeparatorTail(sep, t).Some? ==>
      exists j :: DashAt(t, j) && GreedyCapture(t[j + 1..], 0, SeparatorTail(sep, t).value)
    ensures sep == Dashed && SeparatorTail(sep, t).None? ==>
      forall j :: DashAt(t, j) ==> TailCapture(t[j + 1..], 0).None?
    ensures sep == Spaced && SeparatorTail(sep, t).Some? ==> GreedyCapture(t, 1, SeparatorTail(sep, t).value)
    ensures sep == Spaced && SeparatorTail(sep, t).None? ==> forall k :: !TailSplit(t, 1, k)
  {
    match sep
    case Spaced => TailCaptureSpec(t, 1);
    case Dashed =>
      var w := SpanFrom(IsSpace, t, 0);
      SpanFromSpec(IsSpace, t, 0);
      forall j | DashAt(t, j) ensures j == w {
        SpanFromUnique(IsSpace, t, 0, j);
      }
      if w < |t| && IsDash(t[w]) {
        assert DashAt(t, w);
        TailCaptureSpec(t[w + 1..], 0);
      }
  }

  /** The first `n` characters of `b` can be the label: `**` and a matching tail follow them. */
  predicate LabelFits(sep: Separator, b: string, n: int) {
    && 1 <= n && n + 2 <= |b|
    && NoLineTerminator(b[..n])
    && b[n..n + 2] == "**"
    && SeparatorTail(sep, b[n + 2..]).Some?
  }

  /** The lazy `(.+?)`: the shortest label length, at least `from`, that lets the line match. */
  function LazyLabel(sep: Separator, b: string, from: nat): (r: Option<nat>)
    decreases |b| - from
  {
    if from + 2 > |b| then None
    else if LabelFits(sep, b, from) then Some(from)
    else LazyLabel(sep, b, from + 1)
  }

  /** The label found fits, and it is not shorter than `from`. */
  lemma {:induction false} LazyLabelFits(sep: Separator, b: string, from: nat)
    ensures LazyLabel(sep, b, from).Some? ==>
      from <= LazyLabel(sep, b, from).value && LabelFits(sep, b, LazyLabel(sep, b, from).value)
    decreases |b| - from
  {
    if from + 2 <= |b| && !LabelFits(sep, b, from) {
      LazyLabelFits(sep, b, from + 1);
    }
  }

  /** No label from `from` on and shorter than the one found fits. */
  lemma {:induction false} LazyLabelFirst(sep: Separator, b: string, from: nat)
    ensures LazyLabel(sep, b, from).Some? ==>
      forall m :: from <= m < LazyLabel(sep, b, from).value ==> !LabelFits(sep, b, m)
    decreases |b| - from
  {
    if from + 2 <= |b| && !LabelFits(sep, b, from) {
      LazyLabelFirst(sep, b, from + 1);
    }
  }

  /** When no label is found, none from `from` on fits. */
  lemma {:induction false} LazyLabelNone(sep: Separator, b: string, from: nat)
    ensures LazyLabel(sep, b, from).None? ==> forall m :: from <= m ==> !LabelFits(sep, b, m)
    decreases |b| - from
  {
    if from + 2 <= |b| && !LabelFits(sep, b, from) {
      LazyLabelNone(sep, b, from + 1);
    }
  }

  /**
   * `line` opens with the whitespace `line[..w1]`, the `-` at `w1`, the whitespace
   * `line[w1 + 1..w2]` and the `**` at `w2`; the label and the rest follow at `w2 + 2`.
   */
  predicate NestedSplit(line: string, w1: int, w2: int) {
    && 1 <= w1 && SpacesBetween(line, 0, w1) && LitAt(line, w1, "-")
    && w1 + 1 < w2 && SpacesBetween(line, w1 + 1, w2) && LitAt(line, w2, "**")
  }

  /** `item` is what the expression captures from the rest `b`: the shortest fitting label and its text. */
  ghost predicate NestedCapture(sep: Separator, b: string, item: NestedItem) {
    && LabelFits(sep, b, |item.bold|)
    && item.bold == b[..|item.bold|]
    && SeparatorTail(sep, b[|item.bold| + 2..]) == Some(item.text)
    && forall m :: 1 <= m < |item.bold| ==> !LabelFits(sep, b, m)
  }

  /** The label and text captured from the rest `b` of a nested bullet, after its `**`. */
  function MatchLabelled(sep: Separator, b: string): (r: Option<NestedItem>)
  {
    match LazyLabel(sep, b, 1)
    case None => None
    case Some(n) =>
      LazyLabelFits(sep, b, 1);
      Some(NestedItem(b[..n], SeparatorTail(sep, b[n + 2..]).value))
  }

  /** The capture is the shortest fitting label, with the text its tail captures. */
  lemma MatchLabelledCapture(sep: Separator, b: string)
    ensures MatchLabelled(sep, b).Some? ==> NestedCapture(sep, b, MatchLabelled(sep, b).value)
  {
    match LazyLabel(sep, b, 1)
    case None =>
    case Some(n) =>
      LazyLabelFits(sep, b, 1);
      LazyLabelFirst(sep, b, 1);
      MatchLabelledOf(sep, b, n);
      NestedCaptureIntro(sep, b, n);
  }

  lemma MatchLabelledOf(sep: Separator, b: string, n: nat)
    requires LazyLabel(sep, b, 1) == Some(n) && LabelFits(sep, b, n)
    ensures MatchLabelled(sep, b) == Some(NestedItem(b[..n], SeparatorTail(sep, b[n + 2..]).value))
  {
  }

  lemma NestedCaptureIntro(sep: Separator, b: string, n: nat)
    requires LabelFits(sep, b, n)
    requires forall m :: 1 <= m < n ==> !LabelFits(sep, b, m)
    ensures NestedCapture(sep, b, NestedItem(b[..n], SeparatorTail(sep, b[n + 2..]).value))
  {
    assert |b[..n]| == n;
  }

  /** No capture is made only when no label length fits. */
  lemma MatchLabelledNone(sep: Separator, b: string)
    ensures MatchLabelled(sep, b).None? ==> forall m :: !LabelFits(sep, b, m)
  {
    LazyLabelNone(sep, b, 1);
  }

  /** The `^\s+-\s+\*\*` opening of a nested bullet: the index of its `**`, when present. */
  function NestedPrefix(line: string): (r: Option<nat>)
  {
    var w1 := SpanFrom(IsSpace, line, 0);
    if w1 == 0 || !LitAt(line, w1, "-") then None
    else
      var w2 := SpanFrom(IsSpace, line, w1 + 1);
      if w2 == w1 + 1 || !LitAt(line, w2, "**") then None
      else Some(w2)
  }

  /** The opening is found exactly when the line has nested-bullet shape, and then at that `**`. */
  lemma NestedPrefixSpec(line: string)
    ensures NestedPrefix(line).Some? ==> exists w1 :: NestedSplit(line, w1, NestedPrefix(line).value)
    ensures forall w1, w2 :: NestedSplit(line, w1, w2) ==> NestedPrefix(line) == Some(w2)
  {
    if NestedPrefix(line).Some? {
      var w1 := NestedPrefixParts(line);
    }
    forall w1, w2 | NestedSplit(line, w1, w2) ensures NestedPrefix(line) == Some(w2) {
      NestedPrefixOfSplit(line, w1, w2);
    }
  }

  lemma NestedPrefixParts(line: string) returns (w1: int)
    requires NestedPrefix(line).Some?
    ensures NestedSplit(line, w1, NestedPrefix(line).value)
  {
    w1 := SpanFrom(IsSpace, line, 0);
    SpanFromSpec(IsSpace, line, 0);
    SpanFromSpec(IsSpace, line, w1 + 1);
  }

  lemma NestedPrefixOfSplit(line: string, w1: int, w2: int)
    requires NestedSplit(line, w1, w2)
    ensures NestedPrefix(line) == Some(w2)
  {
    assert line[w1] == line[w1..w1 + 1][0];
    assert line[w2] == line[w2..w2 + 2][0];
    SpanFromUnique(IsSpace, line, 0, w1);
    SpanFromUnique(IsSpace, line, w1 + 1, w2);
  }

  /** Matches a nested-bullet expression against all of `line`. */
  function MatchNested(sep: Separator, line: string): (r: Option<NestedItem>)
  {
    match NestedPrefix(line)
    case None => None
    case Some(w2) => MatchLabelled(sep, line[w2 + 2..])
  }

  /** With the opening at `w2`, the match is the capture from the rest after the `**`. */
  lemma MatchNestedOf(sep: Separator, line: string, w2: nat)
    requires NestedPrefix(line) == Some(w2)
    ensures w2 + 2 <= |line| && MatchNested(sep, line) == MatchLabelled(sep, line[w2 + 2..])
  {
    NestedPrefixSpec(line);
  }

  /** Only a line with the nested-bullet opening is recognised as a nested bullet. */
  lemma MatchNestedShape(sep: Separator, line: string)
    ensures MatchNested(sep, line).Some? ==> exists w1, w2 :: NestedSplit(line, w1, w2)
  {
    NestedPrefixSpec(line);
  }

  /** A line of nested-bullet shape whose rest admits some label is recognised. */
  lemma MatchNestedComplete(sep: Separator, line: string, w1: int, w2: int, m: int)
    requires NestedSplit(line, w1, w2)
    requires LabelFits(sep, line[w2 + 2..], m)
    ensures MatchNested(sep, line).Some?
  {
    NestedPrefixSpec(line);
    MatchNestedOf(sep, line, w2);
    MatchLabelledNone(sep, line[w2 + 2..]);
  }

  /** A nested bullet begins with whitespace, so it is no header and no top-level bullet. */
  lemma NestedNotHeader(sep: Separator, line: string)
    requires MatchNested(sep, line).Some?
    ensures MatchVersionHeader(line).None? && !IsUnreleasedHeader(line)
    ensures MatchPackageHeader(line).None? && MatchSectionHeader(line).None? && MatchSubHeader(line).None?
    ensures MatchBullet(line).None?
  {
    assert SpanFrom(IsSpace, line, 0) > 0;
    assert IsSpace(line[0]);
    NotHeader(line);
  }

  /** A package header line (`### @...`) is no version and no unreleased header. */
  lemma PackageLineNotVersion(line: string)
    requires MatchPackageHeader(line).Some?
    ensures MatchVersionHeader(line).None? && !IsUnreleasedHeader(line)
  {
    assert line[2] == line[0..4][2] == '#';
    assert !LitAt(line, 0, "## [");
  }

  /** `### Name` for one of the section names is only a section header. */
  lemma SectionLine(name: string)
    requires name in SectionNames
    ensures var line := "### " + name;
      MatchVersionHeader(line).None? && !IsUnreleasedHeader(line) && MatchPackageHeader(line).None? &&
      MatchSectionHeader(line) == Some(name)
  {
    var line := "### " + name;
    assert line[0..4] == "### " && line[4] == name[0];
    assert !LitAt(line, 0, "## [");
    assert !LitAt(line, 4, PackageScope);
    MatchSectionHeaderOf(name);
  }
}

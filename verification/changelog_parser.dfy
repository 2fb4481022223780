/**
 * `determineCategory` and `parseChangelog`: a CHANGELOG.md in the Keep a Changelog layout is
 * read line by line, keeping one open release, at most one open package group or section, and
 * the list of finished releases.
 */
module ChangelogParser {
  import opened Wrappers
  import opened Text
  import opened Seqs
  import opened ChangeTypes
  import opened ChangelogLines

  /** The changes of one package inside a release (`### @teamflojo/name (x.y.z)`). */
  datatype PackageChanges = PackageChanges(name: string, version: string, changes: seq<ChangeEntry>)

  /** A plain section of a release (`### Added`, `### Repository`, ...). */
  datatype SectionChanges = SectionChanges(name: string, items: seq<ChangeEntry>)

  datatype Category = SDK | Studio | Repository

  datatype ChangelogRelease = ChangelogRelease(
    version: string,
    date: string,
    packages: seq<PackageChanges>,
    sections: seq<SectionChanges>,
    category: Category)

  // ---------------------------------------------------------------------------------------
  // determineCategory
  // ---------------------------------------------------------------------------------------

  predicate IsStudioPackage(p: PackageChanges) {
    Contains(p.name, "studio") || Contains(p.name, "floimg-studio")
  }

  predicate IsSdkPackage(p: PackageChanges) {
    Contains(p.name, "@teamflojo/floimg") && !Contains(p.name, "studio")
  }

  predicate IsRepositorySection(s: SectionChanges) {
    s.name == "Repository"
  }

  /**
   * Studio when some package is a Studio package and none is an SDK package; Repository when
   * there are neither and some section is named "Repository"; SDK otherwise.
   */
  function DetermineCategory(r: ChangelogRelease): (c: Category)
    ensures c == Studio <==>
      (exists p :: p in r.packages && IsStudioPackage(p)) && !(exists p :: p in r.packages && IsSdkPackage(p))
    ensures c == Repository <==>
      (exists s :: s in r.sections && IsRepositorySection(s)) &&
      !(exists p :: p in r.packages && (IsStudioPackage(p) || IsSdkPackage(p)))
  {
    var studio := Any(r.packages, IsStudioPackage);
    var sdk := Any(r.packages, IsSdkPackage);
    var repo := Any(r.sections, IsRepositorySection);
    if studio && !sdk then Studio
    else if repo && !studio && !sdk then Repository
    else SDK
  }

  /** The `floimg-studio` test adds nothing: such a name already contains `studio`. */
  lemma StudioTestRedundant(name: string)
    ensures Contains(name, "floimg-studio") ==> Contains(name, "studio")
  {
    if Contains(name, "floimg-studio") {
      var i :| OccursAt(name, "floimg-studio", i);
      assert name[i + 7..i + 13] == name[i..i + 13][7..] == "studio";
      assert OccursAt(name, "studio", i + 7);
    }
  }

  /** No package counts as both a Studio and an SDK package. */
  lemma StudioAndSdkDisjoint(p: PackageChanges)
    ensures !(IsStudioPackage(p) && IsSdkPackage(p))
  {
    StudioTestRedundant(p.name);
  }

  /** The category depends only on which packages and sections occur, not on order or repetition. */
  lemma CategoryByMembership(r: ChangelogRelease, r': ChangelogRelease)
    requires forall p :: p in r.packages <==> p in r'.packages
    requires forall s :: s in r.sections <==> s in r'.sections
    ensures DetermineCategory(r) == DetermineCategory(r')
  {
  }

  // ---------------------------------------------------------------------------------------
  // parseChangelog: the state between two lines
  // ---------------------------------------------------------------------------------------

  /** The finished releases and the three open slots (`currentRelease`, `currentPackage`, `currentSection`). */
  datatype State = State(
    done: seq<ChangelogRelease>,
    release: Option<ChangelogRelease>,
    package: Option<PackageChanges>,
    section: Option<SectionChanges>)

  const Start: State := State([], None, None, None)

  /** Zero or one element. */
  function Opt<T>(o: Option<T>): (r: seq<T>)
    ensures o.None? ==> r == []
    ensures o.Some? ==> r == [o.value]
  {
    match o
    case None => []
    case Some(v) => [v]
  }

  /** The release with the open package and section pushed onto its lists. */
  function Absorb(r: ChangelogRelease, package: Option<PackageChanges>, section: Option<SectionChanges>): (a: ChangelogRelease)
    ensures a.version == r.version && a.date == r.date && a.category == r.category
    ensures a.packages == r.packages + Opt(package) && a.sections == r.sections + Opt(section)
  {
    r.(packages := r.packages + Opt(package), sections := r.sections + Opt(section))
  }

  /** The release as it is saved: groups pushed, category computed from its content. */
  function Close(r: ChangelogRelease, package: Option<PackageChanges>, section: Option<SectionChanges>): (c: ChangelogRelease)
    ensures c.version == r.version && c.date == r.date
    ensures c.packages == r.packages + Opt(package) && c.sections == r.sections + Opt(section)
    ensures c.category == DetermineCategory(c)
  {
    var a := Absorb(r, package, section);
    a.(category := DetermineCategory(a))
  }

  /** Saves the open release, if any, and leaves every slot empty. */
  function CloseRelease(st: State): (s: State)
    ensures st.release.None? ==> s == st
    ensures st.release.Some? ==>
      s == State(st.done + [Close(st.release.value, st.package, st.section)], None, None, None)
  {
    match st.release
    case None => st
    case Some(r) => State(st.done + [Close(r, st.package, st.section)], None, None, None)
  }

  /** The release a version header opens: `v` before the number, nothing in it yet. */
  function NewRelease(h: VersionHeader): (r: ChangelogRelease)
    ensures r.version == "v" + h.number && r.date == h.date
    ensures r.packages == [] && r.sections == [] && r.category == SDK
  {
    ChangelogRelease("v" + h.number, h.date, [], [], SDK)
  }

  /** The text a section item line contributes: a `####` sub-header, or a nested bold label and its text. */
  function SectionItem(line: string): Option<string>
  {
    match MatchSubHeader(line)
    case Some(c) => Some(c)
    case None =>
      match MatchNested(Dashed, line)
      case Some(item) => Some(item.bold + ": " + item.text)
      case None =>
        match MatchNested(Spaced, line)
        case Some(item) => Some(item.bold + ": " + item.text)
        case None => None
  }

  /** One change entry added to the open package, else to the open section, else dropped. */
  function AddEntry(done: seq<ChangelogRelease>, r: ChangelogRelease, package: Option<PackageChanges>,
                    section: Option<SectionChanges>, e: ChangeEntry): (s: State)
    ensures s.done == done && s.release == Some(r)
  {
    match package
    case Some(p) => State(done, Some(r), Some(p.(changes := p.changes + [e])), section)
    case None =>
      match section
      case Some(s) => State(done, Some(r), None, Some(s.(items := s.items + [e])))
      case None => State(done, Some(r), None, None)
  }

  /**
   * A line inside the open release `r` that is neither a version nor an unreleased header:
   * a package or section header opens a new group, a bullet or section item records an entry.
   */
  function StepInRelease(done: seq<ChangelogRelease>, r: ChangelogRelease, package: Option<PackageChanges>,
                         section: Option<SectionChanges>, line: string): (s: State)
    ensures s.done == done && s.release.Some?
    ensures s.release.value.version == r.version && s.release.value.date == r.date
  {
    match MatchPackageHeader(line)
    case Some(h) => State(done, Some(Absorb(r, package, section)), Some(PackageChanges(h.name, h.version, [])), None)
    case None =>
      match MatchSectionHeader(line)
      case Some(name) => State(done, Some(Absorb(r, package, section)), None, Some(SectionChanges(name, [])))
      case None =>
        match MatchBullet(line)
        case Some(d) => AddEntry(done, r, package, section, ParseChangeType(d))
        case None =>
          match (SectionItem(line), section)
          case (Some(text), Some(sec)) =>
            State(done, Some(r), package, Some(sec.(items := sec.items + [ChangeEntry(Feat, text)])))
          case _ => State(done, Some(r), package, section)
  }

  /** One iteration of the loop over the lines. */
  function Step(st: State, line: string): State
  {
    match MatchVersionHeader(line)
    case Some(h) => CloseRelease(st).(release := Some(NewRelease(h)))
    case None =>
      if IsUnreleasedHeader(line) then CloseRelease(st)
      else
        match st.release
        case None => st
        case Some(r) => StepInRelease(st.done, r, st.package, st.section, line)
  }

  /** The state after the loop has seen `lines`. */
  function Run(lines: seq<string>): State
  {
    if |lines| == 0 then Start else Step(Run(lines[..|lines| - 1]), lines[|lines| - 1])
  }

  /** The releases once the last open one is saved. */
  function Finish(st: State): seq<ChangelogRelease>
  {
    CloseRelease(st).done
  }

  /** `parseChangelog(content)`. */
  function ParseChangelog(content: string): seq<ChangelogRelease>
  {
    Finish(Run(Split(content, '\n')))
  }

  // ---------------------------------------------------------------------------------------
  // The shape of the state
  // ---------------------------------------------------------------------------------------

  /** A saved release carries the category its own content determines. */
  predicate Categorized(r: ChangelogRelease) {
    r.category == DetermineCategory(r)
  }

  /**
   * No group is open outside a release, the package and section slots are never both open,
   * and every saved release is categorised.
   */
  predicate Wf(st: State) {
    && (st.release.None? ==> st.package.None? && st.section.None?)
    && !(st.package.Some? && st.section.Some?)
    && forall i :: 0 <= i < |st.done| ==> Categorized(st.done[i])
  }

  lemma CloseReleaseWf(st: State)
    requires Wf(st)
    ensures Wf(CloseRelease(st))
  {
    if st.release.Some? {
      var s := CloseRelease(st);
      assert forall i :: 0 <= i < |st.done| ==> s.done[i] == st.done[i];
    }
  }

  lemma StepInReleaseWf(done: seq<ChangelogRelease>, r: ChangelogRelease, package: Option<PackageChanges>,
                        section: Option<SectionChanges>, line: string)
    requires Wf(State(done, Some(r), package, section))
    ensures Wf(StepInRelease(done, r, package, section, line))
  {
  }

  /** Every line keeps the state well formed. */
  lemma StepWf(st: State, line: string)
    requires Wf(st)
    ensures Wf(Step(st, line))
  {
    CloseReleaseWf(st);
    if MatchVersionHeader(line).None? && !IsUnreleasedHeader(line) && st.release.Some? {
      StepInReleaseWf(st.done, st.release.value, st.package, st.section, line);
    }
  }

  lemma {:induction false} RunWf(lines: seq<string>)
    ensures Wf(Run(lines))
  {
    if |lines| > 0 {
      RunWf(lines[..|lines| - 1]);
      StepWf(Run(lines[..|lines| - 1]), lines[|lines| - 1]);
    }
  }

  /** Every release `parseChangelog` returns carries the category its content determines. */
  lemma ParseChangelogCategorized(content: string)
    ensures forall i :: 0 <= i < |ParseChangelog(content)| ==> Categorized(ParseChangelog(content)[i])
  {
    RunWf(Split(content, '\n'));
    CloseReleaseWf(Run(Split(content, '\n')));
  }

  // ---------------------------------------------------------------------------------------
  // One release per version header, in order
  // ---------------------------------------------------------------------------------------

  /** What identifies a release: its `v`-prefixed version and its date. */
  datatype Stamp = Stamp(version: string, date: string)

  function Stamps(rs: seq<ChangelogRelease>): (r: seq<Stamp>)
    ensures |r| == |rs|
    ensures forall i :: 0 <= i < |rs| ==> r[i] == Stamp(rs[i].version, rs[i].date)
  {
    seq(|rs|, i requires 0 <= i < |rs| => Stamp(rs[i].version, rs[i].date))
  }

  /** The stamp each version header of `lines` announces, in order. */
  function HeaderStamps(lines: seq<string>): seq<Stamp>
  {
    if |lines| == 0 then []
    else
      HeaderStamps(lines[..|lines| - 1]) +
      match MatchVersionHeader(lines[|lines| - 1])
      case Some(h) => [Stamp("v" + h.number, h.date)]
      case None => []
  }

  /** The saved releases followed by the open one. */
  function Opened(st: State): seq<ChangelogRelease> {
    st.done + Opt(st.release)
  }

  lemma StampsAppend(a: seq<ChangelogRelease>, b: seq<ChangelogRelease>)
    ensures Stamps(a + b) == Stamps(a) + Stamps(b)
  {
  }

  /** Closing the open release moves it to the saved list without changing its stamp. */
  lemma CloseReleaseStamps(st: State)
    ensures Stamps(Opened(CloseRelease(st))) == Stamps(Opened(st))
  {
    if st.release.Some? {
      var c := Close(st.release.value, st.package, st.section);
      StampsAppend(st.done, [c]);
      StampsAppend(st.done, [st.release.value]);
    }
  }

  lemma StepStampsHeader(st: State, line: string, h: VersionHeader)
    requires MatchVersionHeader(line) == Some(h)
    ensures Stamps(Opened(Step(st, line))) == Stamps(Opened(st)) + [Stamp("v" + h.number, h.date)]
  {
    CloseReleaseStamps(st);
    var c := CloseRelease(st);
    assert c.release.None?;
    StampsAppend(c.done, [NewRelease(h)]);
  }

  lemma StepStampsOther(st: State, line: string)
    requires MatchVersionHeader(line).None?
    ensures Stamps(Opened(Step(st, line))) == Stamps(Opened(st))
  {
    if !IsUnreleasedHeader(line) && st.release.Some? {
      var s := StepInRelease(st.done, st.release.value, st.package, st.section, line);
      StampsAppend(st.done, [s.release.value]);
      StampsAppend(st.done, [st.release.value]);
    } else {
      CloseReleaseStamps(st);
    }
  }

  /** A version header adds one stamp, every other line none. */
  lemma StepStamps(st: State, line: string)
    ensures Stamps(Opened(Step(st, line))) ==
      Stamps(Opened(st)) + match MatchVersionHeader(line) case Some(h) => [Stamp("v" + h.number, h.date)] case None => []
  {
    match MatchVersionHeader(line)
    case Some(h) => StepStampsHeader(st, line, h);
    case None => StepStampsOther(st, line);
  }

  lemma {:induction false} RunStamps(lines: seq<string>)
    ensures Stamps(Opened(Run(lines))) == HeaderStamps(lines)
  {
    if |lines| > 0 {
      RunStamps(lines[..|lines| - 1]);
      StepStamps(Run(lines[..|lines| - 1]), lines[|lines| - 1]);
    }
  }

  /**
   * `parseChangelog` returns one release per version header line, in the order of the lines,
   * each with the header's number behind a `v` and the header's date.
   */
  lemma ParseChangelogStamps(content: string)
    ensures Stamps(ParseChangelog(content)) == HeaderStamps(Split(content, '\n'))
  {
    var st := Run(Split(content, '\n'));
    RunStamps(Split(content, '\n'));
    CloseReleaseStamps(st);
    assert CloseRelease(st).release.None?;
  }

  /** A version `v` followed by a dotted number, and a `YYYY-MM-DD` date. */
  ghost predicate WellStamped(s: Stamp) {
    |s.version| >= 1 && s.version[0] == 'v' && IsDottedTriple(s.version[1..]) && IsIsoDate(s.date)
  }

  lemma {:induction false} HeaderStampsWell(lines: seq<string>)
    ensures forall i :: 0 <= i < |HeaderStamps(lines)| ==> WellStamped(HeaderStamps(lines)[i])
  {
    if |lines| > 0 {
      HeaderStampsWell(lines[..|lines| - 1]);
      var line := lines[|lines| - 1];
      match MatchVersionHeader(line)
      case Some(h) =>
        MatchVersionHeaderSound(line);
        VersionHeaderCaptures(line, h);
        assert ("v" + h.number)[1..] == h.number;
      case None =>
    }
  }

  /** Every release has a version `vX.Y.Z` and a date `YYYY-MM-DD`. */
  lemma ParseChangelogVersions(content: string)
    ensures forall i :: 0 <= i < |ParseChangelog(content)| ==>
      WellStamped(Stamp(ParseChangelog(content)[i].version, ParseChangelog(content)[i].date))
  {
    ParseChangelogStamps(content);
    HeaderStampsWell(Split(content, '\n'));
  }

  /** Without a version header there are no releases; in particular for empty content. */
  lemma ParseChangelogNoHeaders(content: string)
    requires forall i :: 0 <= i < |Split(content, '\n')| ==> MatchVersionHeader(Split(content, '\n')[i]).None?
    ensures ParseChangelog(content) == []
  {
    ParseChangelogStamps(content);
    NoHeaderStamps(Split(content, '\n'));
  }

  lemma {:induction false} NoHeaderStamps(lines: seq<string>)
    requires forall i :: 0 <= i < |lines| ==> MatchVersionHeader(lines[i]).None?
    ensures HeaderStamps(lines) == []
  {
    if |lines| > 0 {
      NoHeaderStamps(lines[..|lines| - 1]);
    }
  }

  lemma ParseChangelogEmpty()
    ensures ParseChangelog("") == []
  {
    assert Split("", '\n') == [""];
    assert MatchVersionHeader("").None?;
    ParseChangelogNoHeaders("");
  }

  /** Saved releases are never revised: each line only appends to them. */
  lemma StepKeepsDone(st: State, line: string)
    ensures |st.done| <= |Step(st, line).done| <= |st.done| + 1
    ensures Step(st, line).done[..|st.done|] == st.done
  {
  }

  // ---------------------------------------------------------------------------------------
  // Where a line goes
  // ---------------------------------------------------------------------------------------

  /** Before the first version header and after an unreleased header, other lines are skipped. */
  lemma OutsideReleaseIgnored(st: State, line: string)
    requires st.release.None?
    requires MatchVersionHeader(line).None? && !IsUnreleasedHeader(line)
    ensures Step(st, line) == st
  {
  }

  /** An unreleased header saves the open release and opens none. */
  lemma UnreleasedCloses(st: State, line: string)
    requires IsUnreleasedHeader(line)
    ensures Step(st, line).done == Finish(st) && Step(st, line).release.None?
  {
    UnreleasedNotVersion(line);
  }

  /**
   * A bullet line (anything `^-\s+(.+)$` matches) while a package is open records
   * `parseChangeType` of its capture in that package.
   */
  lemma BulletIntoPackage(st: State, line: string, d: string)
    requires st.release.Some? && st.package.Some?
    requires MatchBullet(line) == Some(d)
    ensures Step(st, line) ==
      st.(package := Some(st.package.value.(changes := st.package.value.changes + [ParseChangeType(d)])))
  {
    MatchBulletSpec(line);
    NotHeader(line);
  }

  /** A bullet line while only a section is open records `parseChangeType` of its capture there. */
  lemma BulletIntoSection(st: State, line: string, d: string)
    requires st.release.Some? && st.package.None? && st.section.Some?
    requires MatchBullet(line) == Some(d)
    ensures Step(st, line) ==
      st.(section := Some(st.section.value.(items := st.section.value.items + [ParseChangeType(d)])))
  {
    MatchBulletSpec(line);
    NotHeader(line);
  }

  /** A bullet line with neither group open is dropped. */
  lemma BulletWithoutGroup(st: State, line: string, d: string)
    requires st.release.Some? && st.package.None? && st.section.None?
    requires MatchBullet(line) == Some(d)
    ensures Step(st, line) == st
  {
    MatchBulletSpec(line);
    NotHeader(line);
  }

  /** A `#### c` sub-header inside a section becomes a `feat` item with text `c`. */
  lemma SubHeaderIntoSection(st: State, c: string)
    requires st.release.Some? && st.section.Some?
    requires |c| >= 1 && NoLineTerminator(c)
    ensures Step(st, "#### " + c) ==
      st.(section := Some(st.section.value.(items := st.section.value.items + [ChangeEntry(Feat, c)])))
  {
    SubHeaderLine(c);
  }

  /** A `#### c` sub-header is dropped while no section is open. */
  lemma SubHeaderWithoutSection(st: State, c: string)
    requires st.section.None? && |c| >= 1 && NoLineTerminator(c)
    ensures Step(st, "#### " + c) == st
  {
    SubHeaderLine(c);
  }

  /** A package header saves the open package or section into the release and opens a fresh package. */
  lemma PackageHeaderOpens(st: State, line: string)
    requires st.release.Some? && MatchPackageHeader(line).Some?
    ensures var h := MatchPackageHeader(line).value;
      Step(st, line) == State(st.done, Some(Absorb(st.release.value, st.package, st.section)),
                              Some(PackageChanges(h.name, h.version, [])), None)
  {
    PackageLineNotVersion(line);
  }

  /** A section header saves the open package or section into the release and opens that section. */
  lemma SectionHeaderOpens(st: State, name: string)
    requires st.release.Some? && name in SectionNames
    ensures Step(st, "### " + name) ==
      State(st.done, Some(Absorb(st.release.value, st.package, st.section)), None, Some(SectionChanges(name, [])))
  {
    SectionLine(name);
  }

  /** A nested bullet inside a section becomes a `feat` item reading `label: text`. */
  lemma NestedIntoSection(st: State, sep: Separator, line: string)
    requires st.release.Some? && st.section.Some?
    requires MatchNested(sep, line).Some?
    requires sep == Spaced ==> MatchNested(Dashed, line).None?
    ensures var item := MatchNested(sep, line).value;
      Step(st, line) == st.(section := Some(st.section.value.(
        items := st.section.value.items + [ChangeEntry(Feat, item.bold + ": " + item.text)])))
  {
    NestedNotHeader(sep, line);
    SectionItemOfNested(sep, line);
  }

  lemma SectionItemOfNested(sep: Separator, line: string)
    requires MatchNested(sep, line).Some? && MatchSubHeader(line).None?
    requires sep == Spaced ==> MatchNested(Dashed, line).None?
    ensures SectionItem(line) == Some(MatchNested(sep, line).value.bold + ": " + MatchNested(sep, line).value.text)
  {
  }

  /** Nested bullets are dropped while no section is open. */
  lemma NestedWithoutSection(st: State, sep: Separator, line: string)
    requires st.section.None? && MatchNested(sep, line).Some?
    ensures Step(st, line) == st
  {
    NestedNotHeader(sep, line);
  }
}

/**
 * The changelog RSS feed (`GET` of pages/changelog/feed.xml.ts): the OSS and the cloud
 * changelogs are parsed, cloud releases are relabelled `Cloud`, both lists are merged and
 * sorted newest first, and every release becomes one feed item with a title, a summary
 * description, a date, a link and one category.
 *
 * Dates are compared as strings: for the `YYYY-MM-DD` dates the parser captures, string
 * order is date order.
 */
module ChangelogFeed {
  import opened Text
  import opened Seqs
  import opened ChangeTypes
  import opened ChangelogParser

  /** The category a feed item carries: the one the parser inferred, or `Cloud`. */
  datatype FeedCategory = Parsed(category: Category) | Cloud

  /** A release with the category it is published under. */
  datatype Entry = Entry(release: ChangelogRelease, category: FeedCategory)

  /** One RSS item; `pubDate` keeps the release's date string. */
  datatype FeedItem = FeedItem(title: string, description: string, pubDate: string, link: string,
                               categories: seq<string>)

  function CategoryName(c: FeedCategory): string {
    match c
    case Parsed(SDK) => "SDK"
    case Parsed(Studio) => "Studio"
    case Parsed(Repository) => "Repository"
    case Cloud => "Cloud"
  }

  /** Distinct categories are published under distinct names. */
  lemma CategoryNameInjective(a: FeedCategory, b: FeedCategory)
    requires CategoryName(a) == CategoryName(b)
    ensures a == b
  {
  }

  // ---------------------------------------------------------------------------------------
  // Sources

  /** Releases of one fetched changelog; a failed fetch gives `""`, which is not parsed. */
  function SourceReleases(content: string): seq<ChangelogRelease> {
    if content == "" then [] else ParseChangelog(content)
  }

  /** Skipping the parser on empty content changes nothing: it would find no release either. */
  lemma SourceReleasesIsParse(content: string)
    ensures SourceReleases(content) == ParseChangelog(content)
  {
    if content == "" {
      ParseChangelogEmpty();
    }
  }

  /** OSS releases keep the category the parser inferred. */
  function LabelOss(rs: seq<ChangelogRelease>): (r: seq<Entry>)
    ensures |r| == |rs|
    ensures forall i :: 0 <= i < |r| ==> r[i].category != Cloud
  {
    seq(|rs|, i requires 0 <= i < |rs| => Entry(rs[i], Parsed(rs[i].category)))
  }

  /** Cloud releases have their category overwritten to `Cloud`. */
  function LabelCloud(rs: seq<ChangelogRelease>): (r: seq<Entry>)
    ensures |r| == |rs|
    ensures forall i :: 0 <= i < |r| ==> r[i].category == Cloud
  {
    seq(|rs|, i requires 0 <= i < |rs| => Entry(rs[i], Cloud))
  }

  function Releases(es: seq<Entry>): seq<ChangelogRelease> {
    seq(|es|, i requires 0 <= i < |es| => es[i].release)
  }

  /** Labelling leaves the releases themselves untouched, and an OSS label is the parsed category. */
  lemma LabelKeepsReleases(rs: seq<ChangelogRelease>)
    ensures Releases(LabelOss(rs)) == rs && Releases(LabelCloud(rs)) == rs
    ensures forall i :: 0 <= i < |rs| ==> LabelOss(rs)[i].category == Parsed(rs[i].category)
  {
  }

  // ---------------------------------------------------------------------------------------
  // Merge and sort

  /**
   * The sort comparator: `0` when either date is missing, otherwise positive when `a` is the
   * older release (so `b` goes first), negative when it is the newer one.
   */
  function Compare(a: Entry, b: Entry): int {
    if a.release.date == "" || b.release.date == "" then 0
    else if StrLess(a.release.date, b.release.date) then 1
    else if a.release.date == b.release.date then 0
    else -1
  }

  /** Inserts `x` in front of the first element it need not follow. */
  function Insert(x: Entry, s: seq<Entry>): (r: seq<Entry>)
    ensures |r| == |s| + 1
    ensures multiset(r) == multiset(s) + multiset{x}
  {
    if |s| == 0 then [x]
    else if Compare(x, s[0]) <= 0 then [x] + s
    else
      assert s == [s[0]] + s[1..];
      [s[0]] + Insert(x, s[1..])
  }

  /** A stable sort by `Compare` (`Array.prototype.sort`), as an insertion sort from the back. */
  function Sort(s: seq<Entry>): (r: seq<Entry>)
    ensures |r| == |s|
  {
    if |s| == 0 then [] else Insert(s[0], Sort(s[1..]))
  }

  /** OSS releases, then cloud releases, sorted newest first. */
  function Merge(oss: seq<ChangelogRelease>, cloud: seq<ChangelogRelease>): seq<Entry> {
    Sort(LabelOss(oss) + LabelCloud(cloud))
  }

  predicate Dated(e: Entry) {
    e.release.date != ""
  }

  predicate AllDated(s: seq<Entry>) {
    forall i :: 0 <= i < |s| ==> Dated(s[i])
  }

  /** Newest first: no entry is older than one after it. */
  predicate NewestFirst(s: seq<Entry>) {
    forall i, j :: 0 <= i < j < |s| ==> !StrLess(s[i].release.date, s[j].release.date)
  }

  function DateIs(d: string): Entry -> bool {
    (e: Entry) => e.release.date == d
  }

  lemma {:induction false} InsertPermutes(x: Entry, s: seq<Entry>)
    ensures multiset(Insert(x, s)) == multiset([x] + s)
  {
    if |s| > 0 && Compare(x, s[0]) > 0 {
      InsertPermutes(x, s[1..]);
      assert s == [s[0]] + s[1..];
    }
  }

  /** The sort is a permutation: every entry appears as often as before. */
  lemma {:induction false} SortPermutes(s: seq<Entry>)
    ensures multiset(Sort(s)) == multiset(s)
  {
    if |s| > 0 {
      SortPermutes(s[1..]);
      InsertPermutes(s[0], Sort(s[1..]));
      assert s == [s[0]] + s[1..];
    }
  }

  lemma {:induction false} InsertCounts(x: Entry, s: seq<Entry>, p: Entry -> bool)
    ensures |Filter(Insert(x, s), p)| == |Filter([x] + s, p)|
  {
    if |s| > 0 && Compare(x, s[0]) > 0 {
      InsertCounts(x, s[1..], p);
      FilterAppend([s[0]], Insert(x, s[1..]), p);
      FilterAppend([x], s[1..], p);
      FilterAppend([s[0]], s[1..], p);
      FilterAppend([x], s, p);
      assert s == [s[0]] + s[1..];
    }
  }

  /** Sorting keeps the number of entries with any given property. */
  lemma {:induction false} SortCounts(s: seq<Entry>, p: Entry -> bool)
    ensures |Filter(Sort(s), p)| == |Filter(s, p)|
  {
    if |s| > 0 {
      SortCounts(s[1..], p);
      InsertCounts(s[0], Sort(s[1..]), p);
      FilterAppend([s[0]], Sort(s[1..]), p);
      FilterAppend([s[0]], s[1..], p);
      assert s == [s[0]] + s[1..];
    }
  }

  lemma {:induction false} InsertStable(x: Entry, s: seq<Entry>, d: string)
    ensures Filter(Insert(x, s), DateIs(d)) == Filter([x] + s, DateIs(d))
  {
    if |s| > 0 && Compare(x, s[0]) > 0 {
      StrLessIrreflexive(x.release.date);
      assert x.release.date != s[0].release.date;
      InsertStable(x, s[1..], d);
      FilterAppend([s[0]], Insert(x, s[1..]), DateIs(d));
      FilterAppend([x], s[1..], DateIs(d));
      FilterAppend([s[0]], s[1..], DateIs(d));
      FilterAppend([x], s, DateIs(d));
      assert s == [s[0]] + s[1..];
    }
  }

  /** The sort is stable: entries of one date keep their relative order. */
  lemma {:induction false} SortStable(s: seq<Entry>, d: string)
    ensures Filter(Sort(s), DateIs(d)) == Filter(s, DateIs(d))
  {
    if |s| > 0 {
      SortStable(s[1..], d);
      InsertStable(s[0], Sort(s[1..]), d);
      FilterAppend([s[0]], Sort(s[1..]), DateIs(d));
      FilterAppend([s[0]], s[1..], DateIs(d));
      assert s == [s[0]] + s[1..];
    }
  }

  lemma InsertMembers(x: Entry, s: seq<Entry>)
    ensures forall e :: e in Insert(x, s) <==> e == x || e in s
  {
    InsertPermutes(x, s);
    assert forall e :: e in Insert(x, s) <==> e in multiset(Insert(x, s));
  }

  lemma {:induction false} InsertSorted(x: Entry, s: seq<Entry>)
    requires Dated(x) && AllDated(s) && NewestFirst(s)
    ensures AllDated(Insert(x, s)) && NewestFirst(Insert(x, s))
  {
    var r := Insert(x, s);
    InsertMembers(x, s);
    if |s| == 0 {
    } else if Compare(x, s[0]) <= 0 {
      forall j | 1 <= j < |r| ensures !StrLess(x.release.date, r[j].release.date) {
        assert r[j] == s[j - 1];
        if j > 1 {
          NotStrLessTrans(x.release.date, s[0].release.date, s[j - 1].release.date);
        }
      }
    } else {
      var t := Insert(x, s[1..]);
      assert AllDated(s[1..]) && NewestFirst(s[1..]);
      InsertSorted(x, s[1..]);
      InsertMembers(x, s[1..]);
      StrLessAsymmetric(x.release.date, s[0].release.date);
      forall j | 0 <= j < |t| ensures !StrLess(s[0].release.date, t[j].release.date) {
        assert t[j] == x || t[j] in s[1..];
        if t[j] != x {
          var k :| 0 <= k < |s[1..]| && s[1..][k] == t[j];
          assert s[k + 1] == t[j];
        }
      }
      assert r == [s[0]] + t;
      assert forall j :: 1 <= j < |r| ==> r[j] == t[j - 1];
    }
  }

  /** With every date present, the sort lists the newest release first. */
  lemma {:induction false} SortNewestFirst(s: seq<Entry>)
    requires AllDated(s)
    ensures NewestFirst(Sort(s))
  {
    if |s| > 0 {
      assert AllDated(s[1..]);
      SortNewestFirst(s[1..]);
      SortDated(s[1..]);
      InsertSorted(s[0], Sort(s[1..]));
    }
  }

  lemma SortDated(s: seq<Entry>)
    requires AllDated(s)
    ensures AllDated(Sort(s))
  {
    SortPermutes(s);
    forall i | 0 <= i < |Sort(s)| ensures Dated(Sort(s)[i]) {
      assert Sort(s)[i] in multiset(s);
    }
  }

  /** Releases of one date keep their order, OSS ones before cloud ones. */
  lemma MergeSameDate(oss: seq<ChangelogRelease>, cloud: seq<ChangelogRelease>, d: string)
    ensures Filter(Merge(oss, cloud), DateIs(d)) ==
            Filter(LabelOss(oss), DateIs(d)) + Filter(LabelCloud(cloud), DateIs(d))
  {
    SortStable(LabelOss(oss) + LabelCloud(cloud), d);
    FilterAppend(LabelOss(oss), LabelCloud(cloud), DateIs(d));
  }

  /** Parsed releases always carry a date, so the comparator never meets a missing one. */
  lemma ParsedDated(content: string)
    ensures forall i :: 0 <= i < |SourceReleases(content)| ==> SourceReleases(content)[i].date != ""
  {
    SourceReleasesIsParse(content);
    ParseChangelogVersions(content);
  }

  // ---------------------------------------------------------------------------------------
  // Items

  function PackageNames(ps: seq<PackageChanges>): (r: seq<string>)
    ensures |r| == |ps|
  {
    seq(|ps|, i requires 0 <= i < |ps| => ps[i].name + "@" + ps[i].version)
  }

  /** The `name@version` list, joined by `, `. */
  function PackageList(ps: seq<PackageChanges>): string {
    Join(PackageNames(ps), ", ")
  }

  function SumChanges(ps: seq<PackageChanges>): nat {
    if |ps| == 0 then 0 else |ps[0].changes| + SumChanges(ps[1..])
  }

  function SumItems(ss: seq<SectionChanges>): nat {
    if |ss| == 0 then 0 else |ss[0].items| + SumItems(ss[1..])
  }

  /** Number of change entries of a release, over its packages and its sections. */
  function TotalChanges(r: ChangelogRelease): nat {
    SumChanges(r.packages) + SumItems(r.sections)
  }

  /** Every change entry of a release: the packages' in order, then the sections'. */
  function AllEntries(r: ChangelogRelease): seq<ChangeEntry> {
    PackageEntries(r.packages) + SectionEntries(r.sections)
  }

  function PackageEntries(ps: seq<PackageChanges>): seq<ChangeEntry> {
    if |ps| == 0 then [] else ps[0].changes + PackageEntries(ps[1..])
  }

  function SectionEntries(ss: seq<SectionChanges>): seq<ChangeEntry> {
    if |ss| == 0 then [] else ss[0].items + SectionEntries(ss[1..])
  }

  lemma {:induction false} SumChangesCounts(ps: seq<PackageChanges>)
    ensures SumChanges(ps) == |PackageEntries(ps)|
  {
    if |ps| > 0 {
      SumChangesCounts(ps[1..]);
    }
  }

  lemma {:induction false} SumItemsCounts(ss: seq<SectionChanges>)
    ensures SumItems(ss) == |SectionEntries(ss)|
  {
    if |ss| > 0 {
      SumItemsCounts(ss[1..]);
    }
  }

  /** The change count is the number of entries the release lists. */
  lemma TotalChangesCounts(r: ChangelogRelease)
    ensures TotalChanges(r) == |AllEntries(r)|
  {
    SumChangesCounts(r.packages);
    SumItemsCounts(r.sections);
  }

  /** The item's summary: `<packages> - N change(s)`, or `N change(s)` without packages. */
  function Description(r: ChangelogRelease): string {
    var list := PackageList(r.packages);
    var count := NatToString(TotalChanges(r)) + " change(s)";
    if list != "" then list + " - " + count else count
  }

  /** The package list is empty exactly when there are no packages. */
  lemma PackageListEmpty(ps: seq<PackageChanges>)
    ensures PackageList(ps) == "" <==> |ps| == 0
  {
    if |ps| > 0 {
      assert |PackageNames(ps)[0]| >= 1;
      JoinNonEmpty(PackageNames(ps), ", ");
    }
  }

  /** Which of the two description forms a release gets depends only on having packages. */
  lemma DescriptionShape(r: ChangelogRelease)
    ensures |r.packages| > 0 ==>
      Description(r) == PackageList(r.packages) + " - " + NatToString(TotalChanges(r)) + " change(s)"
    ensures |r.packages| == 0 ==> Description(r) == NatToString(TotalChanges(r)) + " change(s)"
  {
    PackageListEmpty(r.packages);
  }

  function Item(e: Entry): FeedItem {
    var r := e.release;
    FeedItem(r.version + " Released", Description(r), r.date, "/changelog/#" + r.version,
             [CategoryName(e.category)])
  }

  function Items(es: seq<Entry>): (r: seq<FeedItem>)
    ensures |r| == |es|
  {
    seq(|es|, i requires 0 <= i < |es| => Item(es[i]))
  }

  /** The feed items of two fetched changelogs. */
  function Feed(ossContent: string, cloudContent: string): seq<FeedItem> {
    Items(Merge(SourceReleases(ossContent), SourceReleases(cloudContent)))
  }

  /** Each item names its release: the title and the link both end with the version. */
  lemma ItemNamesRelease(e: Entry)
    ensures Item(e).title[..|e.release.version|] == e.release.version
    ensures Item(e).title[|e.release.version|..] == " Released"
    ensures Item(e).link[..12] == "/changelog/#" && Item(e).link[12..] == e.release.version
    ensures |Item(e).categories| == 1 && Item(e).categories[0] == CategoryName(e.category)
    ensures Item(e).pubDate == e.release.date
  {
  }

  predicate IsCloudItem(it: FeedItem) {
    it.categories == ["Cloud"]
  }

  predicate IsCloudEntry(e: Entry) {
    e.category == Cloud
  }

  lemma {:induction false} CloudItemsCount(es: seq<Entry>)
    ensures |Filter(Items(es), IsCloudItem)| == |Filter(es, IsCloudEntry)|
  {
    if |es| > 0 {
      CloudItemsCount(es[1..]);
      assert Items(es)[1..] == Items(es[1..]);
      var e := es[0];
      assert IsCloudItem(Item(e)) <==> IsCloudEntry(e) by {
        if IsCloudItem(Item(e)) {
          CategoryNameInjective(e.category, Cloud);
        }
      }
    }
  }

  lemma {:induction false} FilterNone<T(!new)>(s: seq<T>, p: T -> bool)
    requires forall i :: 0 <= i < |s| ==> !p(s[i])
    ensures Filter(s, p) == []
  {
    if |s| > 0 {
      FilterNone(s[1..], p);
    }
  }

  /** The feed has one item per fetched release, and one `Cloud` item per cloud release. */
  lemma FeedCounts(ossContent: string, cloudContent: string)
    ensures |Feed(ossContent, cloudContent)| ==
            |SourceReleases(ossContent)| + |SourceReleases(cloudContent)|
    ensures |Filter(Feed(ossContent, cloudContent), IsCloudItem)| == |SourceReleases(cloudContent)|
  {
    var oss := LabelOss(SourceReleases(ossContent));
    var cloud := LabelCloud(SourceReleases(cloudContent));
    CloudItemsCount(Merge(SourceReleases(ossContent), SourceReleases(cloudContent)));
    SortCounts(oss + cloud, IsCloudEntry);
    FilterAppend(oss, cloud, IsCloudEntry);
    FilterNone(oss, IsCloudEntry);
    FilterAll(cloud, IsCloudEntry);
  }

  /** Every fetched release is in the feed exactly once. */
  lemma FeedPermutes(oss: seq<ChangelogRelease>, cloud: seq<ChangelogRelease>)
    ensures multiset(Releases(Merge(oss, cloud))) == multiset(oss + cloud)
  {
    var s := LabelOss(oss) + LabelCloud(cloud);
    SortReleases(s);
    LabelKeepsReleases(oss);
    LabelKeepsReleases(cloud);
    assert Releases(s) == Releases(LabelOss(oss)) + Releases(LabelCloud(cloud));
  }

  lemma {:induction false} InsertReleases(x: Entry, s: seq<Entry>)
    ensures multiset(Releases(Insert(x, s))) == multiset([x.release] + Releases(s))
  {
    if |s| > 0 && Compare(x, s[0]) > 0 {
      InsertReleases(x, s[1..]);
      assert Releases(Insert(x, s)) == [s[0].release] + Releases(Insert(x, s[1..]));
      assert Releases(s) == [s[0].release] + Releases(s[1..]);
    } else if |s| > 0 {
      assert Releases(Insert(x, s)) == [x.release] + Releases(s);
    }
  }

  lemma {:induction false} SortReleases(s: seq<Entry>)
    ensures multiset(Releases(Sort(s))) == multiset(Releases(s))
  {
    if |s| > 0 {
      SortReleases(s[1..]);
      InsertReleases(s[0], Sort(s[1..]));
      assert Releases(s) == [s[0].release] + Releases(s[1..]);
    }
  }

  /** Feed items run from the newest release to the oldest. */
  lemma FeedNewestFirst(ossContent: string, cloudContent: string)
    ensures forall i, j :: 0 <= i < j < |Feed(ossContent, cloudContent)| ==>
      !StrLess(Feed(ossContent, cloudContent)[i].pubDate, Feed(ossContent, cloudContent)[j].pubDate)
  {
    var oss := SourceReleases(ossContent);
    var cloud := SourceReleases(cloudContent);
    ParsedDated(ossContent);
    ParsedDated(cloudContent);
    var s := LabelOss(oss) + LabelCloud(cloud);
    assert AllDated(s) by {
      forall i | 0 <= i < |s| ensures Dated(s[i]) {
        if i < |oss| {
          assert s[i].release == oss[i];
        } else {
          assert s[i].release == cloud[i - |oss|];
        }
      }
    }
    SortNewestFirst(s);
  }
}

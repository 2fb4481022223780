/**
 * The social links shown on a creator profile, built from the handles stored on the
 * account.
 *
 * Parsing the website address belongs to the host's URL parser; it is the parameter
 * `hostname`, which gives the host name of a parsable address and `None` where the URL
 * constructor would throw.
 */
module Profile {
  import opened Wrappers
  import opened Text

  /** The account fields the links are built from (the rest of the profile is not read). */
  datatype ProfileUser = ProfileUser(
    username: string,
    githubHandle: Option<string>,
    twitterHandle: Option<string>,
    blueskyHandle: Option<string>,
    instagramHandle: Option<string>,
    websiteUrl: Option<string>)

  datatype Platform = GitHub | Twitter | Bluesky | Instagram | Website

  /** The platform's name as the link records it. */
  function PlatformName(p: Platform): string {
    match p
    case GitHub => "github"
    case Twitter => "twitter"
    case Bluesky => "bluesky"
    case Instagram => "instagram"
    case Website => "website"
  }

  /** Position of the platform in the displayed list. */
  function Rank(p: Platform): nat {
    match p
    case GitHub => 0
    case Twitter => 1
    case Bluesky => 2
    case Instagram => 3
    case Website => 4
  }

  /** A displayed link; the link record names its platform by `PlatformName(platform)`. */
  datatype SocialLink = SocialLink(platform: Platform, url: string, handle: string)

  /** Distinct platforms are recorded under distinct names, so the enumeration loses nothing. */
  lemma PlatformNameInjective(a: Platform, b: Platform)
    ensures PlatformName(a) == PlatformName(b) ==> a == b
  {
    if a != b {
      assert PlatformName(a)[0] != PlatformName(b)[0] || |PlatformName(a)| != |PlatformName(b)|;
    }
  }

  /** The stored field a platform's link is built from. */
  function Field(u: ProfileUser, p: Platform): Option<string> {
    match p
    case GitHub => u.githubHandle
    case Twitter => u.twitterHandle
    case Bluesky => u.blueskyHandle
    case Instagram => u.instagramHandle
    case Website => u.websiteUrl
  }

  /** JavaScript truthiness of a nullable string: set and not empty. */
  predicate Present(v: Option<string>) {
    v.Some? && v.value != ""
  }

  /** Address prefix of each handle-based platform. */
  function Prefix(p: Platform): string
    requires p != Website
  {
    match p
    case GitHub => "https://github.com/"
    case Twitter => "https://x.com/"
    case Bluesky => "https://bsky.app/profile/"
    case Instagram => "https://instagram.com/"
  }

  /** The website link needs a parsable address; an unparsable one makes the call fail. */
  predicate Fails(u: ProfileUser, hostname: string -> Option<string>) {
    Present(u.websiteUrl) && hostname(u.websiteUrl.value).None?
  }

  /** What a link of platform `l.platform` must carry. */
  ghost predicate WellFormed(u: ProfileUser, hostname: string -> Option<string>, l: SocialLink) {
    Present(Field(u, l.platform)) &&
    if l.platform == Website then
      l.url == u.websiteUrl.value && hostname(l.url) == Some(l.handle)
    else
      Some(l.handle) == Field(u, l.platform) && l.url == Prefix(l.platform) + l.handle
  }

  /** The link contributed by one platform: none when its field is unset or empty. */
  function Piece(u: ProfileUser, hostname: string -> Option<string>, p: Platform): (r: seq<SocialLink>)
    ensures |r| <= 1
    ensures forall i :: 0 <= i < |r| ==> r[i].platform == p && WellFormed(u, hostname, r[i])
    ensures !Fails(u, hostname) ==> (|r| == 1 <==> Present(Field(u, p)))
  {
    var v := Field(u, p);
    if !Present(v) then []
    else if p == Website then
      match hostname(v.value)
      case None => []
      case Some(host) => [SocialLink(Website, v.value, host)]
    else [SocialLink(p, Prefix(p) + v.value, v.value)]
  }

  /** The pieces of the platforms `ps`, in that order. */
  function Pieces(u: ProfileUser, hostname: string -> Option<string>, ps: seq<Platform>): seq<SocialLink>
  {
    if |ps| == 0 then [] else Piece(u, hostname, ps[0]) + Pieces(u, hostname, ps[1..])
  }

  /** The display order of the platforms. */
  const Order: seq<Platform> := [GitHub, Twitter, Bluesky, Instagram, Website]

  /**
   * `getSocialLinks`: github, twitter, bluesky and instagram links from their handles, then
   * the website with its host name as handle. A website address the URL parser rejects
   * makes the whole call fail.
   */
  function SocialLinks(u: ProfileUser, hostname: string -> Option<string>): (r: Result<seq<SocialLink>, string>)
    ensures r.Failure? <==> Present(u.websiteUrl) && hostname(u.websiteUrl.value).None?
    ensures r.Success? ==> |r.value| <= 5
  {
    if Fails(u, hostname) then Failure("Invalid URL")
    else
      PiecesLength(u, hostname, Order);
      Success(Pieces(u, hostname, Order))
  }

  lemma {:induction false} PiecesLength(u: ProfileUser, hostname: string -> Option<string>, ps: seq<Platform>)
    ensures |Pieces(u, hostname, ps)| <= |ps|
  {
    if |ps| > 0 {
      PiecesLength(u, hostname, ps[1..]);
    }
  }

  /** Every link of the pieces is well formed and belongs to one of the platforms `ps`. */
  lemma {:induction false} PiecesWellFormed(u: ProfileUser, hostname: string -> Option<string>, ps: seq<Platform>)
    ensures forall i :: 0 <= i < |Pieces(u, hostname, ps)| ==>
      Pieces(u, hostname, ps)[i].platform in ps && WellFormed(u, hostname, Pieces(u, hostname, ps)[i])
  {
    if |ps| > 0 {
      PiecesWellFormed(u, hostname, ps[1..]);
      var head := Piece(u, hostname, ps[0]);
      var links := Pieces(u, hostname, ps);
      forall i | 0 <= i < |links| ensures links[i].platform in ps && WellFormed(u, hostname, links[i]) {
        if i >= |head| {
          assert links[i] == Pieces(u, hostname, ps[1..])[i - |head|];
        }
      }
    }
  }

  predicate Increasing(ps: seq<Platform>) {
    forall i, j :: 0 <= i < j < |ps| ==> Rank(ps[i]) < Rank(ps[j])
  }

  /** The pieces of platforms all ranked above `r` are ranked above `r`. */
  lemma {:induction false} PiecesAbove(u: ProfileUser, hostname: string -> Option<string>, ps: seq<Platform>, r: int)
    requires forall i :: 0 <= i < |ps| ==> Rank(ps[i]) > r
    ensures forall i :: 0 <= i < |Pieces(u, hostname, ps)| ==> Rank(Pieces(u, hostname, ps)[i].platform) > r
  {
    if |ps| > 0 {
      PiecesAbove(u, hostname, ps[1..], r);
      assert Pieces(u, hostname, ps) == Piece(u, hostname, ps[0]) + Pieces(u, hostname, ps[1..]);
    }
  }

  /** Pieces of platforms in display order are themselves in display order. */
  lemma {:induction false} PiecesOrdered(u: ProfileUser, hostname: string -> Option<string>, ps: seq<Platform>)
    requires Increasing(ps)
    ensures forall i, j :: 0 <= i < j < |Pieces(u, hostname, ps)| ==>
      Rank(Pieces(u, hostname, ps)[i].platform) < Rank(Pieces(u, hostname, ps)[j].platform)
  {
    if |ps| > 0 {
      PiecesOrdered(u, hostname, ps[1..]);
      PiecesAbove(u, hostname, ps[1..], Rank(ps[0]));
      var head := Piece(u, hostname, ps[0]);
      var tail := Pieces(u, hostname, ps[1..]);
      var links := Pieces(u, hostname, ps);
      assert links == head + tail;
      forall i, j | 0 <= i < j < |links| ensures Rank(links[i].platform) < Rank(links[j].platform) {
        assert links[j] == tail[j - |head|];
        if i >= |head| {
          assert links[i] == tail[i - |head|];
        } else {
          assert links[i] == head[i];
        }
      }
    }
  }

  /** A platform of `ps` has a link among the pieces exactly when its field is set. */
  lemma {:induction false} PiecesPresence(u: ProfileUser, hostname: string -> Option<string>, ps: seq<Platform>, p: Platform)
    requires !Fails(u, hostname)
    ensures (exists i :: 0 <= i < |Pieces(u, hostname, ps)| && Pieces(u, hostname, ps)[i].platform == p) <==>
      p in ps && Present(Field(u, p))
  {
    if |ps| > 0 {
      PiecesPresence(u, hostname, ps[1..], p);
      PiecesWellFormed(u, hostname, ps);
      var head := Piece(u, hostname, ps[0]);
      var tail := Pieces(u, hostname, ps[1..]);
      var links := Pieces(u, hostname, ps);
      if p in ps && Present(Field(u, p)) {
        assert links == head + tail;
        if p == ps[0] {
          assert |head| == 1;
          assert links[0] == head[0] && head[0].platform == p;
        } else {
          assert p in ps[1..];
          var k :| 0 <= k < |tail| && tail[k].platform == p;
          assert links[|head| + k] == tail[k];
        }
      }
    }
  }

  /** The links come in the fixed platform order, so no platform appears twice. */
  lemma SocialLinksOrdered(u: ProfileUser, hostname: string -> Option<string>)
    requires SocialLinks(u, hostname).Success?
    ensures forall i, j :: 0 <= i < j < |SocialLinks(u, hostname).value| ==>
      Rank(SocialLinks(u, hostname).value[i].platform) < Rank(SocialLinks(u, hostname).value[j].platform)
  {
    assert Increasing(Order);
    PiecesOrdered(u, hostname, Order);
    assert SocialLinks(u, hostname) == Success(Pieces(u, hostname, Order));
  }

  /** Every link is built from its platform's field: the prefix and the handle, or the website and its host. */
  lemma SocialLinksWellFormed(u: ProfileUser, hostname: string -> Option<string>)
    requires SocialLinks(u, hostname).Success?
    ensures forall i :: 0 <= i < |SocialLinks(u, hostname).value| ==>
      WellFormed(u, hostname, SocialLinks(u, hostname).value[i])
  {
    PiecesWellFormed(u, hostname, Order);
    assert SocialLinks(u, hostname) == Success(Pieces(u, hostname, Order));
  }

  /** A platform has a link exactly when its field is set and not empty. */
  lemma SocialLinksPresence(u: ProfileUser, hostname: string -> Option<string>, p: Platform)
    requires SocialLinks(u, hostname).Success?
    ensures (exists i :: 0 <= i < |SocialLinks(u, hostname).value| && SocialLinks(u, hostname).value[i].platform == p) <==>
      Present(Field(u, p))
  {
    PiecesPresence(u, hostname, Order, p);
    assert p in Order;
    assert SocialLinks(u, hostname) == Success(Pieces(u, hostname, Order));
  }
}
